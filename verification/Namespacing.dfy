/** cmd/fetchactions-oas3/main.go: several parsed documents of one service put together. */
module Namespacing {
  import opened Prelude
  import opened Strings
  import opened OpenApi
  import opened Flatten

  /** An action: its rendered definition, and the schema of its response. */
  datatype Action = Action(definition: string, responseSchema: Name)

  datatype Doc = Doc(actions: map<string, Action>, schemas: Schemas)

  datatype MergeError = ConflictingAction(key: string) | ConflictingSchema(key: Name)

  // ----- Renaming -----

  function Prefixed(ns: string, name: Name): Name {
    ns + "_" + name
  }

  lemma PrefixedInjective(ns: string)
    ensures forall a, b :: Prefixed(ns, a) == Prefixed(ns, b) ==> a == b
  {
    forall a, b | Prefixed(ns, a) == Prefixed(ns, b) ensures a == b {
      assert a == Prefixed(ns, a)[|ns| + 1..] && b == Prefixed(ns, b)[|ns| + 1..];
    }
  }

  function Resolve(names: set<Name>, ns: string, ref: Name): Name {
    if ref in names then Prefixed(ns, ref) else ref
  }

  function RenameSchema(names: set<Name>, ns: string, s: FlatSchema): FlatSchema {
    s.(properties := map k | k in s.properties :: s.properties[k].(schemaRef := Resolve(names, ns, s.properties[k].schemaRef)),
       items := if s.items.Some? then Some(Resolve(names, ns, s.items.value)) else None)
  }

  /** Renaming changes references to names of the document, and nothing else. */
  lemma RenameKeeps(names: set<Name>, ns: string, s: FlatSchema)
    ensures var t := RenameSchema(names, ns, s);
            && t.kind == s.kind && t.properties.Keys == s.properties.Keys
            && (forall k :: k in s.properties ==>
                  && t.properties[k].kind == s.properties[k].kind && t.properties[k].description == s.properties[k].description
                  && t.properties[k].nullable == s.properties[k].nullable
                  && t.properties[k].schemaRef == if s.properties[k].schemaRef in names then ns + "_" + s.properties[k].schemaRef
                                                  else s.properties[k].schemaRef)
            && (t.items == match s.items
                           case None => None
                           case Some(ref) => Some(if ref in names then ns + "_" + ref else ref))
  {
  }

  function RenameSchemas(ns: string, schemas: Schemas): Schemas {
    PrefixedInjective(ns);
    map n | n in schemas :: Prefixed(ns, n) := RenameSchema(schemas.Keys, ns, schemas[n])
  }

  /** The renamed schemas without those in `left`. */
  function RenamedExcept(ns: string, schemas: Schemas, left: set<Name>): Schemas {
    PrefixedInjective(ns);
    map n | n in schemas && n !in left :: Prefixed(ns, n) := RenameSchema(schemas.Keys, ns, schemas[n])
  }

  function RenameActions(names: set<Name>, ns: string, actions: map<string, Action>): map<string, Action> {
    map k | k in actions :: actions[k].(responseSchema := Resolve(names, ns, actions[k].responseSchema))
  }

  /** `namespaceParseResultSchemas` as a function. */
  function Namespaced(d: Doc, ns: string): Doc {
    if ns == "" || d.schemas == map[] then d
    else Doc(RenameActions(d.schemas.Keys, ns, d.actions), RenameSchemas(ns, d.schemas))
  }

  // ----- Decimal indices -----

  /** The namespace of the document with this index, counted from 0. */
  function Namespace(service: string, index: nat): string {
    service + "_" + Decimal(index + 1)
  }

  /** The service's name and the index from 1, in decimal. */
  lemma NamespaceExactly(service: string, index: nat)
    ensures exists digits :: Namespace(service, index) == service + "_" + digits && Value(digits) == index + 1
                             && digits != "" && digits[0] != '0' && forall c :: c in digits ==> '0' <= c <= '9'
  {
    var digits := Decimal(index + 1);
    DecimalExactly(index + 1);
    assert Namespace(service, index) == service + "_" + digits;
    forall c | c in digits ensures '0' <= c <= '9' {}
  }

  lemma {:induction false} BeforeUnderscore(x: string, a: string, y: string, b: string)
    requires '_' !in x && '_' !in y && x + "_" + a == y + "_" + b
    ensures x == y && a == b
  {
    var s := x + "_" + a;
    assert s[|x|] == '_' && s[|y|] == '_';
    assert |x| == |y|;
    assert x == s[..|x|] && y == s[..|y|] && a == s[|x| + 1..] && b == s[|y| + 1..];
  }

  /** Names from documents with different indices never meet. */
  lemma PrefixFree(service: string, i: nat, a: Name, j: nat, b: Name)
    requires Prefixed(Namespace(service, i), a) == Prefixed(Namespace(service, j), b)
    ensures i == j && a == b
  {
    var s := Prefixed(Namespace(service, i), a);
    var x, y := Decimal(i + 1) + "_" + a, Decimal(j + 1) + "_" + b;
    assert s == (service + "_") + x && s == (service + "_") + y;
    assert x == s[|service| + 1..] && y == s[|service| + 1..];
    BeforeUnderscore(Decimal(i + 1), a, Decimal(j + 1), b);
    DecimalInjective(i + 1, j + 1);
  }

  // ----- Merging -----

  predicate Agree<K, V(==)>(a: map<K, V>, b: map<K, V>) {
    forall k :: k in a && k in b ==> a[k] == b[k]
  }

  /** `mergeParseResult` as a function, where it succeeds. */
  function Merged(target: Doc, source: Doc): Doc {
    Doc(source.actions + target.actions, source.schemas + target.schemas)
  }

  /** What each document contributes; a single document keeps its names. */
  function Part(service: string, docs: seq<Doc>, i: nat): Doc
    requires i < |docs|
  {
    if |docs| > 1 then Namespaced(docs[i], Namespace(service, i)) else docs[i]
  }

  function MergedUpTo(service: string, docs: seq<Doc>, n: nat): Doc
    requires n <= |docs|
  {
    if n == 0 then Doc(map[], map[]) else Merged(MergedUpTo(service, docs, n - 1), Part(service, docs, n - 1))
  }

  lemma PartKeys(service: string, docs: seq<Doc>, i: nat)
    requires i < |docs| && |docs| > 1
    ensures forall k :: k in Part(service, docs, i).schemas <==>
              exists n :: n in docs[i].schemas && k == Prefixed(Namespace(service, i), n)
  {
  }

  lemma {:induction false} KeysComeFromParts(service: string, docs: seq<Doc>, n: nat, key: Name)
    requires n <= |docs| && key in MergedUpTo(service, docs, n).schemas
    ensures exists i :: 0 <= i < n && key in Part(service, docs, i).schemas
  {
    if key !in Part(service, docs, n - 1).schemas {
      KeysComeFromParts(service, docs, n - 1, key);
    }
  }

  /** A document never brings a schema under a name that is already taken. */
  lemma PartsAreDisjoint(service: string, docs: seq<Doc>, n: nat)
    requires n < |docs|
    ensures MergedUpTo(service, docs, n).schemas.Keys !! Part(service, docs, n).schemas.Keys
  {
    forall key | key in MergedUpTo(service, docs, n).schemas && key in Part(service, docs, n).schemas
      ensures false
    {
      KeysComeFromParts(service, docs, n, key);
      var i :| 0 <= i < n && key in Part(service, docs, i).schemas;
      PartKeys(service, docs, i);
      PartKeys(service, docs, n);
      var a :| a in docs[i].schemas && key == Prefixed(Namespace(service, i), a);
      var b :| b in docs[n].schemas && key == Prefixed(Namespace(service, n), b);
      PrefixFree(service, i, a, n, b);
    }
  }

  lemma {:induction false} PartSurvives(service: string, docs: seq<Doc>, i: nat, n: nat, key: Name)
    requires i < n <= |docs| && key in Part(service, docs, i).schemas
    ensures key in MergedUpTo(service, docs, n).schemas
    ensures MergedUpTo(service, docs, n).schemas[key] == Part(service, docs, i).schemas[key]
  {
    PartsAreDisjoint(service, docs, n - 1);
    if i < n - 1 {
      PartSurvives(service, docs, i, n - 1, key);
    }
  }

  /** Every schema of every document is in the result, renamed as a whole. */
  lemma SchemaSurvives(service: string, docs: seq<Doc>, i: nat, name: Name)
    requires i < |docs| && |docs| > 1 && name in docs[i].schemas
    ensures var ns := Namespace(service, i);
            var all := MergedUpTo(service, docs, |docs|).schemas;
            && Prefixed(ns, name) in all
            && all[Prefixed(ns, name)] == RenameSchema(docs[i].schemas.Keys, ns, docs[i].schemas[name])
  {
    var ns := Namespace(service, i);
    PrefixedInjective(ns);
    PartSurvives(service, docs, i, |docs|, Prefixed(ns, name));
  }

  /** A property's reference that resolved in its document leads to the same schema's copy. */
  lemma PropertyRefResolves(service: string, docs: seq<Doc>, i: nat, name: Name, property: string)
    requires i < |docs| && |docs| > 1 && name in docs[i].schemas && property in docs[i].schemas[name].properties
    requires docs[i].schemas[name].properties[property].schemaRef in docs[i].schemas
    ensures var ns := Namespace(service, i);
            var all := MergedUpTo(service, docs, |docs|).schemas;
            var ref := docs[i].schemas[name].properties[property].schemaRef;
            && Prefixed(ns, name) in all && property in all[Prefixed(ns, name)].properties
            && all[Prefixed(ns, name)].properties[property].schemaRef == Prefixed(ns, ref)
            && Prefixed(ns, ref) in all
            && all[Prefixed(ns, ref)] == RenameSchema(docs[i].schemas.Keys, ns, docs[i].schemas[ref])
  {
    SchemaSurvives(service, docs, i, name);
    SchemaSurvives(service, docs, i, docs[i].schemas[name].properties[property].schemaRef);
  }

  /** So does an array's reference to its items. */
  lemma ItemsRefResolves(service: string, docs: seq<Doc>, i: nat, name: Name)
    requires i < |docs| && |docs| > 1 && name in docs[i].schemas
    requires docs[i].schemas[name].items.Some? && docs[i].schemas[name].items.value in docs[i].schemas
    ensures var ns := Namespace(service, i);
            var all := MergedUpTo(service, docs, |docs|).schemas;
            var ref := docs[i].schemas[name].items.value;
            && Prefixed(ns, name) in all && all[Prefixed(ns, name)].items == Some(Prefixed(ns, ref))
            && Prefixed(ns, ref) in all
            && all[Prefixed(ns, ref)] == RenameSchema(docs[i].schemas.Keys, ns, docs[i].schemas[ref])
  {
    SchemaSurvives(service, docs, i, name);
    SchemaSurvives(service, docs, i, docs[i].schemas[name].items.value);
  }

  // ----- Actions -----

  lemma PartAction(service: string, docs: seq<Doc>, i: nat, key: string)
    requires i < |docs| && |docs| > 1 && key in docs[i].actions
    ensures var a := docs[i].actions[key];
            && key in Part(service, docs, i).actions
            && Part(service, docs, i).actions[key]
               == a.(responseSchema := Resolve(docs[i].schemas.Keys, Namespace(service, i), a.responseSchema))
  {
  }

  /** Every action of the result is the first document's that has it. */
  lemma {:induction false} ActionIsFirst(service: string, docs: seq<Doc>, n: nat, key: string) returns (i: nat)
    requires n <= |docs| && key in MergedUpTo(service, docs, n).actions
    ensures i < n && key in docs[i].actions && forall j :: 0 <= j < i ==> key !in docs[j].actions
    ensures key in Part(service, docs, i).actions
    ensures MergedUpTo(service, docs, n).actions[key] == Part(service, docs, i).actions[key]
  {
    if key in MergedUpTo(service, docs, n - 1).actions {
      i := ActionIsFirst(service, docs, n - 1, key);
    } else {
      i := n - 1;
      forall j | 0 <= j < i ensures key !in docs[j].actions {
        ActionIsThere(service, docs, j, n - 1, key);
      }
    }
  }

  lemma {:induction false} ActionIsThere(service: string, docs: seq<Doc>, i: nat, n: nat, key: string)
    requires i < n <= |docs|
    ensures key in docs[i].actions ==> key in MergedUpTo(service, docs, n).actions
  {
    if i < n - 1 {
      ActionIsThere(service, docs, i, n - 1, key);
    }
  }

  /** The response of an action in the result leads to the copy of the schema it led to in the
      document the action is from. */
  lemma ActionRefResolves(service: string, docs: seq<Doc>, key: string) returns (i: nat)
    requires |docs| > 1 && key in MergedUpTo(service, docs, |docs|).actions
    ensures i < |docs| && key in docs[i].actions && forall j :: 0 <= j < i ==> key !in docs[j].actions
    ensures var ns := Namespace(service, i);
            var all := MergedUpTo(service, docs, |docs|);
            var ref := docs[i].actions[key].responseSchema;
            && all.actions[key].definition == docs[i].actions[key].definition
            && (ref in docs[i].schemas ==>
                  && all.actions[key].responseSchema == Prefixed(ns, ref)
                  && Prefixed(ns, ref) in all.schemas
                  && all.schemas[Prefixed(ns, ref)] == RenameSchema(docs[i].schemas.Keys, ns, docs[i].schemas[ref]))
            && (ref !in docs[i].schemas ==> all.actions[key].responseSchema == ref)
  {
    i := ActionIsFirst(service, docs, |docs|, key);
    PartAction(service, docs, i, key);
    if docs[i].actions[key].responseSchema in docs[i].schemas {
      SchemaSurvives(service, docs, i, docs[i].actions[key].responseSchema);
    }
  }

  /** The action is the same in both documents once namespaced: its response schema is renamed in
      neither, or in one of them to what the other one calls its own. */
  predicate SameAction(service: string, docs: seq<Doc>, i: nat, j: nat, key: string)
    requires i < |docs| && j < |docs| && key in docs[i].actions && key in docs[j].actions
  {
    var a, b := docs[i].actions[key], docs[j].actions[key];
    && a.definition == b.definition
    && if a.responseSchema in docs[i].schemas then
         b.responseSchema !in docs[j].schemas && b.responseSchema == Prefixed(Namespace(service, i), a.responseSchema)
       else if b.responseSchema in docs[j].schemas then
         a.responseSchema == Prefixed(Namespace(service, j), b.responseSchema)
       else a.responseSchema == b.responseSchema
  }

  lemma SameActionExactly(service: string, docs: seq<Doc>, i: nat, j: nat, key: string)
    requires i < j < |docs| && key in docs[i].actions && key in docs[j].actions
    ensures key in Part(service, docs, i).actions && key in Part(service, docs, j).actions
    ensures Part(service, docs, i).actions[key] == Part(service, docs, j).actions[key] <==> SameAction(service, docs, i, j, key)
  {
    PartAction(service, docs, i, key);
    PartAction(service, docs, j, key);
    var a, b := docs[i].actions[key].responseSchema, docs[j].actions[key].responseSchema;
    if a in docs[i].schemas && b in docs[j].schemas
       && Prefixed(Namespace(service, i), a) == Prefixed(Namespace(service, j), b) {
      PrefixFree(service, i, a, j, b);
    }
  }

  /** An action whose response has a schema in both documents is never the same. */
  lemma SharedActionConflicts(service: string, docs: seq<Doc>, i: nat, j: nat, key: string)
    requires i < j < |docs| && key in docs[i].actions && key in docs[j].actions
    requires docs[i].actions[key].responseSchema in docs[i].schemas
    requires docs[j].actions[key].responseSchema in docs[j].schemas
    ensures !Agree(Part(service, docs, i).actions, Part(service, docs, j).actions)
  {
    SameActionExactly(service, docs, i, j, key);
  }

  ghost predicate AgreesUpTo(service: string, docs: seq<Doc>, n: nat)
    requires n <= |docs|
  {
    forall m :: 0 <= m < n ==> Agree(MergedUpTo(service, docs, m).actions, Part(service, docs, m).actions)
  }

  ghost predicate SharedAreSame(service: string, docs: seq<Doc>, n: nat)
    requires n <= |docs|
  {
    forall i, j, key :: 0 <= i < j < n && key in docs[i].actions && key in docs[j].actions ==> SameAction(service, docs, i, j, key)
  }

  /** Merging one document after the other goes through exactly if every two of them agree. */
  lemma {:induction false} MergesExactly(service: string, docs: seq<Doc>, n: nat)
    requires n <= |docs|
    ensures AgreesUpTo(service, docs, n) <==> SharedAreSame(service, docs, n)
  {
    if n > 0 {
      MergesExactly(service, docs, n - 1);
      if SharedAreSame(service, docs, n - 1) {
        NextAgrees(service, docs, n - 1);
        assert SharedAreSame(service, docs, n) <==> SameAsBefore(service, docs, n - 1);
      }
    }
  }

  ghost predicate SameAsBefore(service: string, docs: seq<Doc>, m: nat)
    requires m < |docs|
  {
    forall i, key :: 0 <= i < m && key in docs[i].actions && key in docs[m].actions ==> SameAction(service, docs, i, m, key)
  }

  lemma NextAgrees(service: string, docs: seq<Doc>, m: nat)
    requires m < |docs| && SharedAreSame(service, docs, m)
    ensures Agree(MergedUpTo(service, docs, m).actions, Part(service, docs, m).actions) <==> SameAsBefore(service, docs, m)
  {
    var merged, part := MergedUpTo(service, docs, m).actions, Part(service, docs, m).actions;
    if SameAsBefore(service, docs, m) {
      forall key | key in merged && key in part ensures merged[key] == part[key] {
        OneMoreAgrees(service, docs, m, key);
      }
    }
    if Agree(merged, part) {
      forall i, key | 0 <= i < m && key in docs[i].actions && key in docs[m].actions
        ensures SameAction(service, docs, i, m, key)
      {
        ActionIsThere(service, docs, i, m, key);
        PartAction(service, docs, m, key);
        OneMoreAgrees(service, docs, m, key);
      }
    }
  }

  lemma OneMoreAgrees(service: string, docs: seq<Doc>, m: nat, key: string)
    requires m < |docs| && SharedAreSame(service, docs, m)
    requires key in MergedUpTo(service, docs, m).actions && key in docs[m].actions
    ensures MergedUpTo(service, docs, m).actions[key] == Part(service, docs, m).actions[key]
            <==> forall i :: 0 <= i < m && key in docs[i].actions ==> SameAction(service, docs, i, m, key)
  {
    var first := ActionIsFirst(service, docs, m, key);
    SameActionExactly(service, docs, first, m, key);
    forall i | 0 <= i < m && key in docs[i].actions
      ensures SameAction(service, docs, i, m, key) <==> SameAction(service, docs, first, m, key)
    {
      SameActionExactly(service, docs, i, m, key);
      if i != first {
        SameActionExactly(service, docs, first, i, key);
      }
    }
  }

  // ----- The parsed documents as the program holds them -----

  class ParseResult {
    var actions: map<string, Action>
    var schemas: Schemas

    ghost function Value(): Doc
      reads this
    {
      Doc(actions, schemas)
    }

    constructor (d: Doc)
      ensures Value() == d
    {
      actions, schemas := d.actions, d.schemas;
    }

    /** `namespaceParseResultSchemas`, its maps visited in any order. */
    method NamespaceSchemas(ns: string)
      modifies this
      ensures Value() == Namespaced(old(Value()), ns)
    {
      if ns == "" || schemas == map[] {
        return;
      }
      RenameAllActions(schemas.Keys, ns);
      schemas := RenameAllSchemas(ns, schemas);
    }

    /** The second loop of `namespaceParseResultSchemas`. */
    static method RenameAllSchemas(ns: string, schemas: Schemas) returns (namespaced: Schemas)
      ensures namespaced == RenameSchemas(ns, schemas)
    {
      PrefixedInjective(ns);
      var names := schemas.Keys;
      var left := names;
      namespaced := map[];
      while left != {}
        invariant left <= names
        invariant namespaced == RenamedExcept(ns, schemas, left)
      {
        var name :| name in left;
        left := left - {name};
        var schema := schemas[name];
        var properties := RenameProperties(names, ns, schema.properties);
        schema := schema.(properties := properties);
        if schema.items.Some? {
          schema := schema.(items := Some(Resolve(names, ns, schema.items.value)));
        }
        namespaced := namespaced[Resolve(names, ns, name) := schema];
      }
    }

    /** The first loop of `namespaceParseResultSchemas`. */
    method RenameAllActions(names: set<Name>, ns: string)
      modifies this`actions
      ensures actions == RenameActions(names, ns, old(actions))
    {
      var left := actions.Keys;
      while left != {}
        invariant left <= old(actions).Keys == actions.Keys
        invariant forall k :: k in left ==> actions[k] == old(actions)[k]
        invariant forall k :: k in actions.Keys - left ==> actions[k] == RenameActions(names, ns, old(actions))[k]
      {
        var key :| key in left;
        left := left - {key};
        var action := actions[key];
        actions := actions[key := action.(responseSchema := Resolve(names, ns, action.responseSchema))];
      }
      assert actions.Keys - left == actions.Keys;
    }

    static method RenameProperties(names: set<Name>, ns: string, ps: map<string, FlatProperty>)
      returns (r: map<string, FlatProperty>)
      ensures r == map k | k in ps :: ps[k].(schemaRef := Resolve(names, ns, ps[k].schemaRef))
    {
      r := ps;
      var left := ps.Keys;
      while left != {}
        invariant left <= ps.Keys == r.Keys
        invariant forall k :: k in left ==> r[k] == ps[k]
        invariant forall k :: k in ps.Keys - left ==> r[k] == ps[k].(schemaRef := Resolve(names, ns, ps[k].schemaRef))
      {
        var k :| k in left;
        left := left - {k};
        r := r[k := r[k].(schemaRef := Resolve(names, ns, r[k].schemaRef))];
      }
      assert ps.Keys - left == ps.Keys;
    }

    /** `mergeParseResult` with this as the target. */
    method Merge(source: Doc) returns (err: Option<MergeError>)
      modifies this
      ensures err == None <==> Agree(old(actions), source.actions) && Agree(old(schemas), source.schemas)
      ensures err == None ==> Value() == Merged(old(Value()), source)
      ensures err.Some? && err.value.ConflictingSchema? ==> !Agree(old(schemas), source.schemas)
      ensures err.Some? && err.value.ConflictingAction? ==> !Agree(old(actions), source.actions)
    {
      var conflict;
      actions, conflict := MergeMaps(actions, source.actions);
      if conflict.Some? {
        return Some(ConflictingAction(conflict.value));
      }
      schemas, conflict := MergeMaps(schemas, source.schemas);
      if conflict.Some? {
        return Some(ConflictingSchema(conflict.value));
      }
      return None;
    }

    /** Each loop of `mergeParseResult`: add what is missing, stop at the first disagreement. */
    static method MergeMaps<V(==)>(target: map<string, V>, source: map<string, V>)
      returns (r: map<string, V>, conflict: Option<string>)
      ensures conflict == None <==> Agree(target, source)
      ensures conflict == None ==> r == source + target
    {
      r := target;
      var left := source.Keys;
      while left != {}
        invariant left <= source.Keys && r.Keys == target.Keys + (source.Keys - left)
        invariant forall k :: k in target ==> r[k] == target[k]
        invariant forall k :: k in r && k !in target ==> r[k] == source[k]
        invariant forall k :: k in source.Keys - left && k in target ==> target[k] == source[k]
      {
        var k :| k in left;
        left := left - {k};
        if k in r {
          if r[k] != source[k] {
            return r, Some(k);
          }
        } else {
          r := r[k := source[k]];
        }
      }
      assert source.Keys - left == source.Keys;
      return r, None;
    }
  }

  /** The loop of `run` over the sources of one service: no run of it reports a schema conflict, and
      one reports an action conflict exactly if an action is not the same in two documents. */
  method Combine(service: string, docs: seq<Doc>) returns (result: ParseResult, err: Option<MergeError>)
    ensures err.Some? ==> err.value.ConflictingAction?
    ensures err == None ==> result.Value() == MergedUpTo(service, docs, |docs|)
    ensures err == None <==> SharedAreSame(service, docs, |docs|)
  {
    result, err := MergeParts(service, docs);
    MergesExactly(service, docs, |docs|);
  }

  method MergeParts(service: string, docs: seq<Doc>) returns (result: ParseResult, err: Option<MergeError>)
    ensures err.Some? ==> err.value.ConflictingAction?
    ensures err == None ==> result.Value() == MergedUpTo(service, docs, |docs|)
    ensures err == None <==> AgreesUpTo(service, docs, |docs|)
  {
    err := None;
    result := new ParseResult(Doc(map[], map[]));
    for n := 0 to |docs|
      invariant fresh(result) && result.Value() == MergedUpTo(service, docs, n)
      invariant AgreesUpTo(service, docs, n) && err == None
    {
      err := AddDocument(service, docs, n, result);
      if err.Some? {
        return;
      }
    }
  }

  /** The loop's body. */
  method AddDocument(service: string, docs: seq<Doc>, n: nat, result: ParseResult) returns (err: Option<MergeError>)
    requires n < |docs| && result.Value() == MergedUpTo(service, docs, n)
    modifies result
    ensures err.Some? ==> err.value.ConflictingAction?
    ensures err == None ==> result.Value() == MergedUpTo(service, docs, n + 1)
    ensures err == None <==> Agree(MergedUpTo(service, docs, n).actions, Part(service, docs, n).actions)
  {
    var parsed := ParseDocument(service, docs, n);
    SchemasAgree(service, docs, n);
    err := result.Merge(Doc(parsed.actions, parsed.schemas));
  }

  lemma SchemasAgree(service: string, docs: seq<Doc>, n: nat)
    requires n < |docs|
    ensures Agree(MergedUpTo(service, docs, n).schemas, Part(service, docs, n).schemas)
  {
    PartsAreDisjoint(service, docs, n);
  }

  /** A parsed document, namespaced if it is one of several. */
  method ParseDocument(service: string, docs: seq<Doc>, n: nat) returns (parsed: ParseResult)
    requires n < |docs|
    ensures fresh(parsed) && parsed.Value() == Part(service, docs, n)
  {
    parsed := new ParseResult(docs[n]);
    if |docs| > 1 {
      parsed.NamespaceSchemas(Namespace(service, n));
    }
  }
}
