/** internal/agentruntime/compile_tools.go: from a stored selection to the runtime's tool list. */
module RuntimeTools {
  import opened Prelude
  import opened Strings

  const ORDER := ["bash", "read_file", "write_file", "apply_patch", "lsp", "subagent_task", "search_sessions",
                  "request_user_input", "update_plan", "drive_upload", "drive_download"]

  /** The grantable tools that are not runtime tools. */
  const GRANTABLE := ["web_search", "web_fetch", "web_crawl", "generate_image", "generate_vector_image",
                      "remix_image", "vectorize_image", "search_knowledge_base", "sheet_create", "sheet_list",
                      "sheet_describe", "sheet_manage", "rows_query", "rows_write", "sheet_import_csv",
                      "sheet_operations", "app_create", "app_publish", "app_status", "app_logs", "app_rollback",
                      "send_email", "email_read", "email_search", "drive_search"]

  const RETIRED := ["file_search", "glob", "grep", "multi_grep", "check_bash_status", "LS", "skill"]

  /** A stored value; an object is known by its "enabled" entry, where that is a boolean, and the rest. */
  datatype Value = Null | Flag(on: bool) | Object(enabled: Option<bool>, config: string) | Other(text: string)

  datatype Meaning = Unknown | Ignored | Tool(id: string)

  type Selection = map<string, Value>

  /** `runtimeToolSelectionEnabled` */
  predicate Enabled(v: Value) {
    match v
    case Null => false
    case Flag(on) => on
    case Object(enabled, _) => enabled != Some(false)
    case Other(_) => true
  }

  /** `expandRuntimeToolID` */
  function Expand(raw: string): Meaning {
    var key := TrimPrefix(TrimSpace(raw), "builtin.");
    if key == "generate_image" || key == "generate_vector_image" then Ignored
    else if key in ORDER then Tool(key)
    else if key in RETIRED then Ignored
    else if key == "Read" then Tool("read_file")
    else if key == "write" || key == "edit" || key == "multiedit" then Tool("write_file")
    else if key == "todowrite" || key == "todoread" then Tool("update_plan")
    else if key in GRANTABLE then Ignored
    else Unknown
  }

  /** `isCanonicalRuntimeToolKey` */
  predicate Canonical(raw: string, id: string) {
    TrimSpace(raw) == id || TrimPrefix(TrimSpace(raw), "builtin.") == id
  }

  // ----- What keys and values mean, spelled out -----

  /** Not null, not false, and no object that says `"enabled": false`. */
  lemma EnabledExactly(v: Value)
    ensures Enabled(v) <==> v != Null && v != Flag(false) && !(v.Object? && v.enabled == Some(false))
  {
  }

  /** The legacy names, and the tools they stand for. */
  const ALIASES := map["Read" := "read_file", "write" := "write_file", "edit" := "write_file", "multiedit" := "write_file",
                       "todowrite" := "update_plan", "todoread" := "update_plan"]

  /** A key stands for the tool it names, with or without `builtin.` and spaces around, or for which
      it is a legacy name. */
  lemma ExpandExactly(raw: string, id: string)
    ensures var key := TrimPrefix(TrimSpace(raw), "builtin.");
            Expand(raw) == Tool(id) <==> (key == id && id in ORDER) || (key in ALIASES && ALIASES[key] == id)
  {
    AliasesAreNoTools();
  }

  /** The canonical keys of a tool are its name, and that with `builtin.` in front. */
  lemma CanonicalExactly(raw: string, id: string)
    requires !("builtin." <= id)
    ensures Canonical(raw, id) <==> TrimSpace(raw) == id || TrimSpace(raw) == "builtin." + id
  {
    var key := TrimSpace(raw);
    if "builtin." <= key {
      assert key == "builtin." + key[8..];
    }
    assert ("builtin." + id)[8..] == id;
  }

  /** Nobody knows a key that is neither a tool, a legacy name, retired, nor grantable elsewhere. */
  lemma UnknownExactly(raw: string)
    ensures var key := TrimPrefix(TrimSpace(raw), "builtin.");
            Expand(raw) == Unknown <==> key !in ORDER && key !in ALIASES && key !in RETIRED && key !in GRANTABLE
  {
    assert GRANTABLE[3] == "generate_image" && GRANTABLE[4] == "generate_vector_image";
  }

  lemma AliasesAreNoTools()
    ensures forall key :: key in ALIASES ==> key !in ORDER && key !in RETIRED && key != "generate_image" && key != "generate_vector_image"
    ensures "generate_image" !in ORDER && "generate_vector_image" !in ORDER
  {
  }

  // ----- Which key decides on a tool -----

  /** `k` is an enabled key for the tool. */
  ghost predicate Claims(sel: Selection, keys: set<string>, id: string, k: string) {
    k in keys && k in sel && Enabled(sel[k]) && Expand(k) == Tool(id)
  }

  /** A canonical key beats every alias and every canonical key before it; an alias beats only later aliases. */
  ghost predicate Beats(id: string, k: string, other: string) {
    if Canonical(k, id) then Canonical(other, id) ==> Less(other, k)
    else !Canonical(other, id) && Less(k, other)
  }

  ghost predicate Wins(sel: Selection, keys: set<string>, id: string, k: string) {
    Claims(sel, keys, id, k) && forall j :: Claims(sel, keys, id, j) && j != k ==> Beats(id, k, j)
  }

  /** Exactly the tools with an enabled key, each with the value of the key that wins it. */
  ghost predicate Decided(sel: Selection, keys: set<string>, out: Selection) {
    && (forall id, k :: Claims(sel, keys, id, k) ==> id in out)
    && (forall id :: id in out ==> exists k :: Wins(sel, keys, id, k) && out[id] == sel[k])
  }

  /** The selection leaves no choice: the order in which a map is walked cannot matter. */
  lemma DecidedUnique(sel: Selection, keys: set<string>, a: Selection, b: Selection)
    requires Decided(sel, keys, a) && Decided(sel, keys, b)
    ensures a == b
  {
    forall id ensures id in a <==> id in b {}
    forall id | id in a ensures a[id] == b[id] {
      var k :| Wins(sel, keys, id, k) && a[id] == sel[k];
      var j :| Wins(sel, keys, id, j) && b[id] == sel[j];
      OneWinner(sel, keys, id, k, j);
    }
  }

  lemma OneWinner(sel: Selection, keys: set<string>, id: string, k: string, j: string)
    requires Wins(sel, keys, id, k) && Wins(sel, keys, id, j)
    ensures k == j
  {
    if k != j {
      LessIsTotal(k, j);
    }
  }

  /** A key that claims nothing changes nothing. */
  lemma AddIdle(sel: Selection, keys: set<string>, key: string, out: Selection)
    requires Decided(sel, keys, out)
    requires forall id :: !Claims(sel, keys + {key}, id, key)
    ensures Decided(sel, keys + {key}, out)
  {
    forall id, k ensures Claims(sel, keys + {key}, id, k) <==> Claims(sel, keys, id, k) {}
    forall id | id in out ensures exists k :: Wins(sel, keys + {key}, id, k) && out[id] == sel[k] {
      var k :| Wins(sel, keys, id, k) && out[id] == sel[k];
      assert Wins(sel, keys + {key}, id, k);
    }
  }

  /** A later alias for a tool that is there loses. */
  lemma AddAlias(sel: Selection, keys: set<string>, key: string, id: string, out: Selection)
    requires Decided(sel, keys, out) && key !in keys && (forall k :: k in keys ==> Less(k, key))
    requires Claims(sel, keys + {key}, id, key) && !Canonical(key, id) && id in out
    ensures Decided(sel, keys + {key}, out)
  {
    forall x, k | Claims(sel, keys + {key}, x, k) ensures x in out {
      if k != key {
        assert Claims(sel, keys, x, k);
      }
    }
    forall x | x in out ensures exists k :: Wins(sel, keys + {key}, x, k) && out[x] == sel[k] {
      var k :| Wins(sel, keys, x, k) && out[x] == sel[k];
      forall j | Claims(sel, keys + {key}, x, j) && j != k ensures Beats(x, k, j) {
        if j != key {
          assert Claims(sel, keys, x, j);
        }
      }
      assert Wins(sel, keys + {key}, x, k);
    }
  }

  /** A later canonical key, or the first key of its tool, decides. */
  lemma AddWinner(sel: Selection, keys: set<string>, key: string, id: string, out: Selection)
    requires Decided(sel, keys, out) && key !in keys && (forall k :: k in keys ==> Less(k, key))
    requires Claims(sel, keys + {key}, id, key) && (Canonical(key, id) || id !in out)
    ensures Decided(sel, keys + {key}, out[id := sel[key]])
  {
    var now := out[id := sel[key]];
    forall x, k | Claims(sel, keys + {key}, x, k) ensures x in now {
      if k != key {
        assert Claims(sel, keys, x, k);
      }
    }
    forall x | x in now ensures exists k :: Wins(sel, keys + {key}, x, k) && now[x] == sel[k] {
      if x == id {
        forall j | Claims(sel, keys + {key}, id, j) && j != key ensures Beats(id, key, j) {
          assert Claims(sel, keys, id, j);
        }
        assert Wins(sel, keys + {key}, id, key);
      } else {
        var k :| Wins(sel, keys, x, k) && out[x] == sel[k];
        forall j | Claims(sel, keys + {key}, x, j) && j != k ensures Beats(x, k, j) {
          assert Claims(sel, keys, x, j);
        }
        assert Wins(sel, keys + {key}, x, k);
      }
    }
  }

  /** The last enabled canonical key in sorted order decides, or without one the first enabled alias. */
  ghost predicate HasWinningValue(sel: Selection, id: string, v: Value) {
    exists k :: k in sel && sel[k] == v && Enabled(v) && Expand(k) == Tool(id) &&
                if Canonical(k, id)
                then forall j :: j in sel && Enabled(sel[j]) && Expand(j) == Tool(id) && Canonical(j, id) && j != k ==> Less(j, k)
                else forall j :: j in sel && Enabled(sel[j]) && Expand(j) == Tool(id) && j != k ==> !Canonical(j, id) && Less(k, j)
  }

  lemma DecidedExactly(sel: Selection, out: Selection, id: string)
    requires Decided(sel, sel.Keys, out)
    ensures id in out <==> exists k :: k in sel && Enabled(sel[k]) && Expand(k) == Tool(id)
    ensures id in out ==> HasWinningValue(sel, id, out[id])
  {
    if id in out {
      var k :| Wins(sel, sel.Keys, id, k) && out[id] == sel[k];
      WinnerHasValue(sel, id, k);
    }
    if k :| k in sel && Enabled(sel[k]) && Expand(k) == Tool(id) {
      assert Claims(sel, sel.Keys, id, k);
    }
  }

  lemma WinnerHasValue(sel: Selection, id: string, k: string)
    requires Wins(sel, sel.Keys, id, k)
    ensures HasWinningValue(sel, id, sel[k])
  {
    forall j | j in sel && Enabled(sel[j]) && Expand(j) == Tool(id) && j != k ensures Beats(id, k, j) {
      assert Claims(sel, sel.Keys, id, j);
    }
  }

  // ----- The passes -----

  /** The keys of a map in sorted order, gathered in any order. */
  method SortKeys(keys: set<string>) returns (r: seq<string>)
    ensures r == SortedKeys(keys)
  {
    r := [];
    var rest := keys;
    while rest != {}
      invariant Elements(r) == keys - rest && NoDuplicates(r) && rest <= keys
      decreases |rest|
    {
      var k :| k in rest;
      AppendNew(r, k);
      r := r + [k];
      rest := rest - {k};
    }
    assert Elements(r) == keys;
    SortedAs(r, keys);
    r := Sort(r);
  }

  lemma AppendNew(r: seq<string>, k: string)
    requires NoDuplicates(r) && k !in Elements(r)
    ensures NoDuplicates(r + [k]) && Elements(r + [k]) == Elements(r) + {k}
  {
    ElementsAppend(r, [k]);
    assert k !in r;
  }

  /** `normalizeRuntimeToolSelection`: refused exactly for an enabled key nobody knows, naming the first. */
  method Normalize(sel: Selection) returns (r: Result<Selection, string>)
    ensures r.Ok? <==> AllKnown(sel)
    ensures r.Ok? ==> Decided(sel, sel.Keys, r.value)
    ensures r.Err? ==> IsFirstUnknown(sel, r.error)
  {
    var keys := SortKeys(sel.Keys);
    var out: Selection := map[];
    for i := 0 to |keys|
      invariant Decided(sel, Elements(keys[..i]), out)
      invariant forall j :: 0 <= j < i && Enabled(sel[keys[j]]) ==> Expand(keys[j]) != Unknown
    {
      var key := keys[i];
      ghost var done := Elements(keys[..i]);
      Next(keys, i);
      var expanded := Expand(key);
      if !Enabled(sel[key]) {
        AddIdle(sel, done, key, out);
      } else if expanded == Unknown {
        FirstUnknown(sel, keys, i);
        return Err(key);
      } else if expanded == Ignored {
        AddIdle(sel, done, key, out);
      } else if expanded.id in out && !Canonical(key, expanded.id) {
        AddAlias(sel, done, key, expanded.id, out);
      } else {
        AddWinner(sel, done, key, expanded.id, out);
        out := out[expanded.id := sel[key]];
      }
    }
    assert keys[..|keys|] == keys;
    forall k | k in sel && Enabled(sel[k]) ensures Expand(k) != Unknown {
      assert k in Elements(keys);
    }
    r := Ok(out);
  }

  lemma Next(keys: seq<string>, i: nat)
    requires i < |keys| && StrictlySorted(keys)
    ensures keys[i] !in Elements(keys[..i]) && (forall k :: k in Elements(keys[..i]) ==> Less(k, keys[i]))
    ensures Elements(keys[..i + 1]) == Elements(keys[..i]) + {keys[i]}
    ensures keys[i] in Elements(keys)
  {
    LessIsTotal(keys[i], keys[i]);
    ElementsAppend(keys[..i], [keys[i]]);
    assert keys[..i + 1] == keys[..i] + [keys[i]];
  }

  lemma FirstUnknown(sel: Selection, keys: seq<string>, i: nat)
    requires keys == SortedKeys(sel.Keys) && i < |keys|
    requires forall j :: 0 <= j < i && keys[j] in sel && Enabled(sel[keys[j]]) ==> Expand(keys[j]) != Unknown
    ensures forall k :: k in sel && Less(k, keys[i]) && Enabled(sel[k]) ==> Expand(k) != Unknown
  {
    forall k | k in sel && Less(k, keys[i]) && Enabled(sel[k]) ensures Expand(k) != Unknown {
      assert k in Elements(keys);
      var j :| 0 <= j < |keys| && keys[j] == k;
      LessIsTotal(k, keys[i]);
      assert j < i;
    }
  }

  /** The ids of a list that a map holds, in the list's order. */
  function Chosen(order: seq<string>, out: Selection): seq<string> {
    if order == [] then []
    else if order[|order| - 1] in out then Chosen(order[..|order| - 1], out) + [order[|order| - 1]]
    else Chosen(order[..|order| - 1], out)
  }

  ghost predicate Before(order: seq<string>, a: string, b: string) {
    exists i, j :: 0 <= i < j < |order| && order[i] == a && order[j] == b
  }

  lemma BeforeMore(order: seq<string>, a: string, b: string, last: string)
    ensures Before(order, a, b) ==> Before(order + [last], a, b)
    ensures a in order ==> Before(order + [last], a, last)
  {
    var more := order + [last];
    if Before(order, a, b) {
      var i, j :| 0 <= i < j < |order| && order[i] == a && order[j] == b;
      assert more[i] == a && more[j] == b;
    }
    if a in order {
      var i :| 0 <= i < |order| && order[i] == a;
      assert more[i] == a && more[|order|] == last;
    }
  }

  /** A subsequence of the list, of exactly the ids the map holds. */
  lemma {:induction false} ChosenIsSubsequence(order: seq<string>, out: Selection)
    ensures Elements(Chosen(order, out)) == Elements(order) * out.Keys
    ensures forall p, q :: 0 <= p < q < |Chosen(order, out)| ==> Before(order, Chosen(order, out)[p], Chosen(order, out)[q])
  {
    if order != [] {
      var n := |order| - 1;
      var c := Chosen(order[..n], out);
      ChosenIsSubsequence(order[..n], out);
      ElementsAppend(order[..n], [order[n]]);
      ElementsAppend(c, [order[n]]);
      assert order == order[..n] + [order[n]];
      forall p, q | 0 <= p < q < |Chosen(order, out)| ensures Before(order, Chosen(order, out)[p], Chosen(order, out)[q]) {
        assert c[p] in Elements(c);
        BeforeMore(order[..n], c[p], Chosen(order, out)[q], order[n]);
      }
    }
  }

  lemma RuntimeIds(id: string, raw: string)
    requires Expand(raw) == Tool(id)
    ensures id in ORDER
  {
    assert ORDER[1] == "read_file" && ORDER[2] == "write_file" && ORDER[8] == "update_plan";
  }

  /** Every decided tool is emitted: the order lists all tools a key can stand for. */
  lemma AllEmitted(sel: Selection, keys: set<string>, out: Selection)
    requires Decided(sel, keys, out)
    ensures Elements(Chosen(ORDER, out)) == out.Keys
  {
    ChosenIsSubsequence(ORDER, out);
    forall id | id in out ensures id in Elements(ORDER) {
      var k :| Wins(sel, keys, id, k) && out[id] == sel[k];
      RuntimeIds(id, k);
    }
  }

  /** `mergeLockedDriveRuntimeTools` */
  function Locked(sel: Selection): Selection {
    sel["drive_upload" := Flag(true)]["drive_download" := Flag(true)]
  }

  /** No stored value takes the drive tools away; at most another canonical spelling of the key, sorted
      after the plain one, still sets the value. */
  lemma LockedToolsStay(sel: Selection, out: Selection, id: string)
    requires id == "drive_upload" || id == "drive_download"
    requires Decided(Locked(sel), Locked(sel).Keys, out)
    ensures id in Chosen(ORDER, out)
    ensures id in out
    ensures out[id] == Flag(true) || exists k :: k in sel && Less(id, k) && Canonical(k, id) && out[id] == sel[k]
  {
    var keys := Locked(sel).Keys;
    PlainKey(id);
    assert Claims(Locked(sel), keys, id, id);
    AllEmitted(Locked(sel), keys, out);
    assert id in Elements(Chosen(ORDER, out));
    var k :| Wins(Locked(sel), keys, id, k) && out[id] == Locked(sel)[k];
    LockedWinner(sel, id, k);
  }

  lemma LockedWinner(sel: Selection, id: string, k: string)
    requires id == "drive_upload" || id == "drive_download"
    requires Wins(Locked(sel), Locked(sel).Keys, id, k)
    ensures Locked(sel)[k] == Flag(true) || (k in sel && Less(id, k) && Canonical(k, id) && Locked(sel)[k] == sel[k])
  {
    PlainKey(id);
    if k != id {
      assert Claims(Locked(sel), Locked(sel).Keys, id, id);
      assert Beats(id, k, id);
      OtherPlainKey(id, k);
    }
  }

  lemma PlainKey(id: string)
    requires id == "drive_upload" || id == "drive_download"
    ensures Expand(id) == Tool(id) && Canonical(id, id)
  {
    assert TrimLeft(id) == id && TrimRight(id) == id && id[0] == 'd';
    assert TrimPrefix(id, "builtin.") == id by { assert "builtin."[0] == 'b'; }
    assert ORDER[9] == "drive_upload" && ORDER[10] == "drive_download";
  }

  /** The plain key of one drive tool does not stand for the other. */
  lemma OtherPlainKey(id: string, k: string)
    requires id == "drive_upload" || id == "drive_download"
    requires k != id && Expand(k) == Tool(id)
    ensures k != "drive_upload" && k != "drive_download"
  {
    PlainKey("drive_upload");
    PlainKey("drive_download");
  }

  ghost predicate AllKnown(sel: Selection) {
    forall k :: k in sel && Enabled(sel[k]) ==> Expand(k) != Unknown
  }

  /** The first enabled key in sorted order that nobody knows. */
  ghost predicate IsFirstUnknown(sel: Selection, key: string) {
    && key in sel && Enabled(sel[key]) && Expand(key) == Unknown
    && forall k :: k in sel && Less(k, key) && Enabled(sel[k]) ==> Expand(k) != Unknown
  }

  /** `buildRuntimeToolsFromSelection`, for any way to turn a tool and its value into a spec. */
  method Build<Spec>(sel: Selection, spec: (string, Value) -> Result<Spec, string>) returns (r: Result<seq<Spec>, string>)
    ensures r.Ok? ==> AllKnown(sel) && exists out :: Decided(sel, sel.Keys, out) && Emitted(ORDER, out, spec, r.value)
    ensures r.Err? ==> IsFirstUnknown(sel, r.error) ||
                       (AllKnown(sel) && exists out :: Decided(sel, sel.Keys, out) && FirstRefused(ORDER, out, spec, r.error))
  {
    if sel == map[] {
      NothingChosen(ORDER);
      assert Decided(sel, sel.Keys, map[]) && Emitted(ORDER, map[], spec, []);
      return Ok([]);
    }
    var normalized := Normalize(sel);
    if normalized.Err? {
      return Err(normalized.error);
    }
    if normalized.value == map[] {
      NothingChosen(ORDER);
      assert Emitted(ORDER, normalized.value, spec, []);
      return Ok([]);
    }
    r := Emit(ORDER, normalized.value, spec);
  }

  /** One spec for each chosen id, in order. */
  ghost predicate Emitted<Spec>(order: seq<string>, out: Selection, spec: (string, Value) -> Result<Spec, string>, specs: seq<Spec>) {
    var ids := Chosen(order, out);
    |specs| == |ids| && forall i :: 0 <= i < |ids| ==> ids[i] in out && spec(ids[i], out[ids[i]]) == Ok(specs[i])
  }

  /** The error of the first chosen id that has one. */
  ghost predicate FirstRefused<Spec>(order: seq<string>, out: Selection, spec: (string, Value) -> Result<Spec, string>, error: string) {
    var ids := Chosen(order, out);
    exists i :: 0 <= i < |ids| && ids[i] in out && spec(ids[i], out[ids[i]]) == Err(error)
                && forall j :: 0 <= j < i ==> ids[j] in out && spec(ids[j], out[ids[j]]).Ok?
  }

  lemma {:induction false} ChosenPrefix(order: seq<string>, i: nat, out: Selection)
    requires i <= |order|
    ensures Chosen(order[..i], out) <= Chosen(order, out)
    decreases |order|
  {
    if i < |order| {
      var front := order[..|order| - 1];
      ChosenPrefix(front, i, out);
      assert front[..i] == order[..i];
    } else {
      assert order[..i] == order;
    }
  }

  method Emit<Spec>(order: seq<string>, out: Selection, spec: (string, Value) -> Result<Spec, string>)
    returns (r: Result<seq<Spec>, string>)
    ensures r.Ok? ==> Emitted(order, out, spec, r.value)
    ensures r.Err? ==> FirstRefused(order, out, spec, r.error)
  {
    var specs: seq<Spec> := [];
    for i := 0 to |order|
      invariant Emitted(order[..i], out, spec, specs)
    {
      assert order[..i + 1][..i] == order[..i];
      var id := order[i];
      if id in out {
        var s := spec(id, out[id]);
        if s.Err? {
          ChosenPrefix(order, i + 1, out);
          assert Chosen(order, out)[|specs|] == id;
          return Err(s.error);
        }
        specs := specs + [s.value];
      }
    }
    assert order[..|order|] == order;
    r := Ok(specs);
  }

  lemma {:induction false} NothingChosen(order: seq<string>)
    ensures Chosen(order, map[]) == []
  {
    if order != [] {
      NothingChosen(order[..|order| - 1]);
    }
  }
}
