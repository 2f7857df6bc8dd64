/** internal/agentruntime/compile_skill_filter.go: which MCP tools an agent may call. */
module ToolFilter {
  import opened Prelude
  import opened Strings

  const EMAIL_TOOLS := ["send_email", "email_read", "email_search"]

  const BASELINE_PARENT := ["skill_view", "drive_search", "search_knowledge_base", "list_team_skills",
                            "create_skill", "update_skill", "archive_skill", "cron"]

  const SUBAGENT_FLOOR := ["skill_view"]

  /** The lists a filter is written with; nil and empty lists are not told apart. */
  datatype Lists = Lists(allow: seq<string>, deny: seq<string>)

  /** A catalog's filter, where a list may be absent. */
  datatype Payload = Payload(allow: Option<seq<string>>, deny: Option<seq<string>>)

  /** An agent, with the filter of its attached or stored catalog entry, if there is one. */
  datatype Agent = Agent(inbox: string, attached: Option<Payload>, stored: Option<Payload>, own: Option<Lists>)

  // ----- What the passes mean -----

  /** The names in a list: trimmed, blanks left out. */
  function Names(values: seq<string>): set<string> {
    (set v | v in values :: TrimSpace(v)) - {""}
  }

  predicate IsEmailTool(id: string) {
    TrimPrefix(id, "hivy_") in EMAIL_TOOLS
  }

  /** Allowed and not denied; without a filter, nothing. */
  ghost function Optional(filter: Option<Lists>): set<string> {
    if filter == None then {} else Names(filter.value.allow) - Names(filter.value.deny)
  }

  /** The inbox alone decides on the email tools. */
  function WithEmail(ids: set<string>, hasInbox: bool): set<string> {
    (set id | id in ids && !IsEmailTool(id)) + if hasInbox then Elements(EMAIL_TOOLS) else {}
  }

  /** What a parent agent is granted. */
  ghost function ParentGrant(filter: Option<Lists>, hasInbox: bool): set<string> {
    WithEmail(Optional(filter) + Elements(BASELINE_PARENT), hasInbox)
  }

  function ParentOnly(): set<string> {
    Elements(BASELINE_PARENT) - Elements(SUBAGENT_FLOOR)
  }

  /** What a sub-agent is granted. */
  ghost function SubAgentGrant(filter: Option<Lists>, hasInbox: bool): set<string> {
    WithEmail(Optional(filter) + Elements(SUBAGENT_FLOOR), hasInbox) - ParentOnly()
  }

  function PayloadLists(p: Payload): Lists {
    Lists(if p.allow.Some? then p.allow.value else [], if p.deny.Some? then p.deny.value else [])
  }

  predicate Given(p: Option<Payload>) {
    p.Some? && (p.value.allow.Some? || p.value.deny.Some?)
  }

  /** The filter that counts for an agent: the attached catalog's, else the stored one's, else its own. */
  function FilterFor(agent: Option<Agent>): Option<Lists> {
    if agent == None then None
    else if Given(agent.value.attached) then Some(PayloadLists(agent.value.attached.value))
    else if Given(agent.value.stored) then Some(PayloadLists(agent.value.stored.value))
    else agent.value.own
  }

  function HasInbox(agent: Option<Agent>): bool {
    agent.Some? && TrimSpace(agent.value.inbox) != ""
  }

  // ----- What follows for every agent -----

  lemma EmailNames()
    ensures forall id :: id in EMAIL_TOOLS ==> IsEmailTool(id)
  {
    forall id | id in EMAIL_TOOLS ensures IsEmailTool(id) {
      assert id[0] == 's' || id[0] == 'e';
      assert !("hivy_" <= id) by { assert "hivy_"[0] == 'h'; }
    }
  }

  /** Email tools, raw or prefixed, are granted exactly with an inbox, and then as the whole raw group. */
  lemma EmailIffInbox(ids: set<string>, hasInbox: bool)
    ensures (set id | id in WithEmail(ids, hasInbox) && IsEmailTool(id))
            == if hasInbox then Elements(EMAIL_TOOLS) else {}
  {
    EmailNames();
    forall id ensures id in EMAIL_TOOLS <==> id in Elements(EMAIL_TOOLS) {}
  }

  lemma EmailStepIdempotent(ids: set<string>, hasInbox: bool)
    ensures WithEmail(WithEmail(ids, hasInbox), hasInbox) == WithEmail(ids, hasInbox)
  {
    EmailNames();
    forall id ensures id in EMAIL_TOOLS <==> id in Elements(EMAIL_TOOLS) {}
  }

  lemma BaselineIsNoEmail()
    ensures forall id :: id in BASELINE_PARENT ==> !IsEmailTool(id)
  {
    forall id | id in BASELINE_PARENT ensures !IsEmailTool(id) {
      assert id[0] in {'s', 'd', 'l', 'c', 'u', 'a'};
      assert !("hivy_" <= id) by { assert "hivy_"[0] == 'h'; }
      NotEmail(id);
    }
  }

  lemma NotEmail(id: string)
    requires id in BASELINE_PARENT
    ensures id !in EMAIL_TOOLS
  {
    assert |"send_email"| == 10 && |"email_read"| == 10 && |"email_search"| == 12;
    assert "skill_view"[1] == 'k' && "send_email"[1] == 'e';
    assert "skill_view"[0] == 's' && "drive_search"[0] == 'd' && "search_knowledge_base"[0] == 's' && |"search_knowledge_base"| == 21;
    assert "list_team_skills"[0] == 'l' && "create_skill"[0] == 'c' && "update_skill"[0] == 'u';
    assert "archive_skill"[0] == 'a' && "cron"[0] == 'c' && "send_email"[0] == 's';
    assert "email_read"[0] == 'e' && "email_search"[0] == 'e';
  }

  /** No deny list takes away the baseline of a parent, and no allow list gives a sub-agent what
      only parents may call. */
  lemma FloorsHold(filter: Option<Lists>, hasInbox: bool)
    ensures Elements(BASELINE_PARENT) <= ParentGrant(filter, hasInbox)
    ensures SubAgentGrant(filter, hasInbox) !! ParentOnly()
    ensures Elements(SUBAGENT_FLOOR) <= SubAgentGrant(filter, hasInbox) <= ParentGrant(filter, hasInbox)
  {
    BaselineIsNoEmail();
    forall id | id in Elements(BASELINE_PARENT) ensures id in ParentGrant(filter, hasInbox) {
      assert id in BASELINE_PARENT;
    }
    assert "skill_view" in BASELINE_PARENT;
  }

  /** A filter that only denies grants what no filter grants. */
  lemma DenyOnlyGrantsNothing(deny: seq<string>, hasInbox: bool)
    ensures ParentGrant(Some(Lists([], deny)), hasInbox) == ParentGrant(None, hasInbox)
  {
    assert Names([]) == {};
  }

  /** Normalizing twice, as the catalog path does, is normalizing once. */
  lemma NamesOfSorted(values: seq<string>)
    ensures Names(SortedKeys(Names(values))) == Names(values)
  {
    var once := SortedKeys(Names(values));
    forall v | v in Names(values) ensures TrimSpace(v) == v && v != "" {
      var w :| w in values && v == TrimSpace(w);
      TrimSpaceIdempotent(w);
    }
    forall v ensures v in Names(once) <==> v in Names(values) {
      if v in Names(values) {
        assert v in Elements(once) && TrimSpace(v) == v;
      }
      if v in Names(once) {
        var w :| w in once && v == TrimSpace(w);
        assert w in Elements(once);
      }
    }
  }

  // ----- The grants, spelled out -----

  /** A list allows the id and does not deny it, spaces around either aside. */
  ghost predicate AllowsAndDoesNotDeny(filter: Option<Lists>, id: string) {
    && filter.Some? && id != ""
    && (exists v :: v in filter.value.allow && TrimSpace(v) == id)
    && forall d :: d in filter.value.deny ==> TrimSpace(d) != id
  }

  lemma OptionalExactly(filter: Option<Lists>, id: string)
    ensures id in Optional(filter) <==> AllowsAndDoesNotDeny(filter, id)
  {
  }

  lemma IsEmailToolExactly(id: string)
    ensures IsEmailTool(id) <==>
              id in {"send_email", "email_read", "email_search", "hivy_send_email", "hivy_email_read", "hivy_email_search"}
  {
    if "hivy_" <= id {
      var raw := id[5..];
      assert TrimPrefix(id, "hivy_") == raw && id == "hivy_" + raw && id[0] == 'h';
      PrefixedEmail(raw);
    } else {
      assert TrimPrefix(id, "hivy_") == id;
      PrefixedEmail("send_email");
      PrefixedEmail("email_read");
      PrefixedEmail("email_search");
    }
  }

  lemma PrefixedEmail(raw: string)
    ensures raw in {"send_email", "email_read", "email_search"} <==>
              "hivy_" + raw in {"hivy_send_email", "hivy_email_read", "hivy_email_search"}
    ensures "hivy_" <= "hivy_" + raw
  {
    assert ("hivy_" + raw)[5..] == raw;
    assert "hivy_" + "send_email" == "hivy_send_email";
    assert "hivy_" + "email_read" == "hivy_email_read";
    assert "hivy_" + "email_search" == "hivy_email_search";
    assert "hivy_send_email"[5..] == "send_email";
    assert "hivy_email_read"[5..] == "email_read";
    assert "hivy_email_search"[5..] == "email_search";
  }

  ghost predicate ParentMay(filter: Option<Lists>, hasInbox: bool, id: string) {
    if IsEmailTool(id) then hasInbox && id in {"send_email", "email_read", "email_search"}
    else AllowsAndDoesNotDeny(filter, id) ||
         id in {"skill_view", "drive_search", "search_knowledge_base", "list_team_skills",
                "create_skill", "update_skill", "archive_skill", "cron"}
  }

  ghost predicate SubAgentMay(filter: Option<Lists>, hasInbox: bool, id: string) {
    if IsEmailTool(id) then hasInbox && id in {"send_email", "email_read", "email_search"}
    else id == "skill_view" ||
         (AllowsAndDoesNotDeny(filter, id) &&
          id !in {"drive_search", "search_knowledge_base", "list_team_skills",
                  "create_skill", "update_skill", "archive_skill", "cron"})
  }

  lemma ParentGrantExactly(filter: Option<Lists>, hasInbox: bool, id: string)
    ensures id in ParentGrant(filter, hasInbox) <==> ParentMay(filter, hasInbox, id)
  {
    OptionalExactly(filter, id);
    EmailNames();
    assert id in Elements(BASELINE_PARENT) <==> id in BASELINE_PARENT;
    assert id in Elements(EMAIL_TOOLS) <==> id in EMAIL_TOOLS;
  }

  lemma SubAgentGrantExactly(filter: Option<Lists>, hasInbox: bool, id: string)
    ensures id in SubAgentGrant(filter, hasInbox) <==> SubAgentMay(filter, hasInbox, id)
  {
    OptionalExactly(filter, id);
    EmailNames();
    BaselineIsNoEmail();
    assert id in Elements(BASELINE_PARENT) <==> id in BASELINE_PARENT;
    assert id in Elements(SUBAGENT_FLOOR) <==> id in SUBAGENT_FLOOR;
    assert id in Elements(EMAIL_TOOLS) <==> id in EMAIL_TOOLS;
  }

  predicate GivesNothing(p: Option<Payload>) {
    p == None || p == Some(Payload(None, None))
  }

  /** The attached catalog's filter goes first, then the stored one's, if it gives any list; then
      the agent's own. */
  lemma FilterForExactly(agent: Agent)
    ensures agent.attached.Some? && (agent.attached.value.allow.Some? || agent.attached.value.deny.Some?) ==>
              FilterFor(Some(agent)) == Some(PayloadLists(agent.attached.value))
    ensures GivesNothing(agent.attached) && agent.stored.Some? &&
            (agent.stored.value.allow.Some? || agent.stored.value.deny.Some?) ==>
              FilterFor(Some(agent)) == Some(PayloadLists(agent.stored.value))
    ensures GivesNothing(agent.attached) && GivesNothing(agent.stored) ==> FilterFor(Some(agent)) == agent.own
    ensures FilterFor(None) == None
  {
  }

  // ----- The passes -----

  /** A compiled filter, passed by reference and rewritten in place. */
  class Filter {
    var allow: seq<string>
    var deny: seq<string>

    constructor (allow: seq<string>)
      ensures this.allow == allow && deny == []
    {
      this.allow, deny := allow, [];
    }

    /** `applyMCPToolFloor` on a filter that is there. */
    method ApplyFloor(floor: seq<string>)
      modifies this
      ensures Elements(allow) == old(Elements(allow)) + Elements(floor)
      ensures old(StrictlySorted(allow)) ==> allow == SortedKeys(old(Elements(allow)) + Elements(floor))
      ensures deny == old(deny)
    {
      var changed := false;
      ghost var before := allow;
      if StrictlySorted(before) {
        StrictlySortedNoDuplicates(before);
      }
      for i := 0 to |floor|
        invariant deny == old(deny) && Elements(allow) == Elements(before) + Elements(floor[..i])
        invariant NoDuplicates(before) ==> NoDuplicates(allow)
        invariant !changed ==> allow == before
      {
        ElementsAppend(floor[..i], [floor[i]]);
        assert floor[..i + 1] == floor[..i] + [floor[i]];
        if floor[i] !in allow {
          ElementsAppend(allow, [floor[i]]);
          allow := allow + [floor[i]];
          changed := true;
        }
      }
      assert floor[..|floor|] == floor;
      if NoDuplicates(allow) {
        SortIsSortedKeys(allow);
      }
      SortElements(allow);
      if changed {
        allow := Sort(allow);
      } else if StrictlySorted(before) {
        StrictlySortedUnique(allow, SortedKeys(Elements(allow)));
      }
    }

    /** `applyAgentInboxEmailTools` on a filter that is there. */
    method ApplyEmailTools(hasInbox: bool)
      modifies this
      ensures allow == SortedKeys(WithEmail(old(Elements(allow)), hasInbox)) && deny == []
    {
      var kept := DropEmail(allow);
      ghost var granted := WithEmail(Elements(allow), hasInbox);
      if hasInbox {
        kept := AddMissing(kept, EMAIL_TOOLS);
      }
      assert Elements(kept) == granted;
      SortedAs(kept, granted);
      allow := Sort(kept);
      deny := [];
    }

    /** Drop the email tools and repetitions, keeping the order. */
    static method DropEmail(ids: seq<string>) returns (r: seq<string>)
      ensures NoDuplicates(r) && Elements(r) == set id | id in Elements(ids) && !IsEmailTool(id)
    {
      r := [];
      for i := 0 to |ids|
        invariant NoDuplicates(r)
        invariant Elements(r) == set id | id in Elements(ids[..i]) && !IsEmailTool(id)
      {
        ElementsAppend(ids[..i], [ids[i]]);
        assert ids[..i + 1] == ids[..i] + [ids[i]];
        if !IsEmailTool(ids[i]) && ids[i] !in r {
          ElementsAppend(r, [ids[i]]);
          r := r + [ids[i]];
        }
      }
      assert ids[..|ids|] == ids;
    }

    /** Append the ids that are not there yet. */
    static method AddMissing(ids: seq<string>, more: seq<string>) returns (r: seq<string>)
      requires NoDuplicates(ids)
      ensures NoDuplicates(r) && Elements(r) == Elements(ids) + Elements(more)
    {
      r := ids;
      for i := 0 to |more|
        invariant NoDuplicates(r) && Elements(r) == Elements(ids) + Elements(more[..i])
      {
        ElementsAppend(more[..i], [more[i]]);
        assert more[..i + 1] == more[..i] + [more[i]];
        if more[i] !in r {
          ElementsAppend(r, [more[i]]);
          r := r + [more[i]];
        }
      }
      assert more[..|more|] == more;
    }

    /** Drop the ids in `out`, keeping the order. */
    static method Without(ids: seq<string>, out: set<string>) returns (r: seq<string>)
      requires StrictlySorted(ids)
      ensures r == SortedKeys(Elements(ids) - out)
    {
      r := [];
      for i := 0 to |ids|
        invariant Elements(r) == Elements(ids[..i]) - out && StrictlySorted(r)
        invariant forall x :: x in r ==> x in ids[..i]
      {
        ElementsAppend(ids[..i], [ids[i]]);
        assert ids[..i + 1] == ids[..i] + [ids[i]];
        if ids[i] !in out {
          ElementsAppend(r, [ids[i]]);
          forall k | 0 <= k < |r| ensures Less(r[k], ids[i]) {
            assert r[k] in ids[..i];
          }
          r := r + [ids[i]];
        }
      }
      assert ids[..|ids|] == ids;
      StrictlySortedUnique(r, SortedKeys(Elements(ids) - out));
    }
  }

  /** `normalizeStringsPreservingNil` */
  method NormalizeStrings(values: seq<string>) returns (out: seq<string>)
    ensures out == SortedKeys(Names(values))
  {
    out := [];
    for i := 0 to |values|
      invariant NoDuplicates(out) && Elements(out) == Names(values[..i])
    {
      var name := TrimSpace(values[i]);
      NamesAppend(values[..i], values[i]);
      assert values[..i + 1] == values[..i] + [values[i]];
      if name != "" && name !in out {
        ElementsAppend(out, [name]);
        out := out + [name];
      }
    }
    assert values[..|values|] == values;
    SortIsSortedKeys(out);
    out := Sort(out);
  }

  lemma NamesAppend(values: seq<string>, v: string)
    ensures Names(values + [v]) == Names(values) + ({TrimSpace(v)} - {""})
  {
    forall x ensures x in Names(values + [v]) <==> x in Names(values) + ({TrimSpace(v)} - {""}) {
      if x in Names(values) {
        var w :| w in values && x == TrimSpace(w);
        assert w in values + [v];
      }
      if x == TrimSpace(v) {
        assert v in values + [v];
      }
    }
  }

  /** `normalizeToolFilter` */
  method NormalizeToolFilter(filter: Option<Lists>) returns (r: Filter)
    ensures fresh(r) && r.allow == SortedKeys(Optional(filter)) && r.deny == []
  {
    var allow, deny := [], [];
    if filter.Some? {
      allow := NormalizeStrings(filter.value.allow);
      deny := NormalizeStrings(filter.value.deny);
    }
    forall id ensures id in deny <==> id in Elements(deny) {}
    var filtered := Filter.Without(allow, Elements(deny));
    r := new Filter(filtered);
  }

  /** `compileMCPToolFilter` */
  method CompileParent(filter: Option<Lists>) returns (r: Filter)
    ensures fresh(r) && r.allow == SortedKeys(Optional(filter) + Elements(BASELINE_PARENT)) && r.deny == []
  {
    r := NormalizeToolFilter(filter);
    r.ApplyFloor(BASELINE_PARENT);
  }

  /** `compileSubAgentMCPToolFilter` */
  method CompileSubAgent(filter: Option<Lists>, hasInbox: bool) returns (r: Filter)
    ensures fresh(r) && r.allow == SortedKeys(SubAgentGrant(filter, hasInbox)) && r.deny == []
    ensures StrictlySorted(r.allow) && forall id :: id in r.allow <==> SubAgentMay(filter, hasInbox, id)
  {
    r := NormalizeToolFilter(filter);
    r.ApplyFloor(SUBAGENT_FLOOR);
    r.ApplyEmailTools(hasInbox);
    var allow := Filter.Without(r.allow, ParentOnly());
    forall id ensures id in allow <==> SubAgentMay(filter, hasInbox, id) {
      assert id in allow <==> id in Elements(allow);
      SubAgentGrantExactly(filter, hasInbox, id);
    }
    r.allow := allow;
  }

  /** `toolFilterFromPayload`; null stands for "no filter given". */
  method FromPayload(payload: Option<Payload>) returns (r: Filter?)
    ensures r != null <==> Given(payload)
    ensures r != null ==>
              fresh(r) && r.deny == [] &&
              r.allow == SortedKeys(Optional(Some(PayloadLists(payload.value))) + Elements(BASELINE_PARENT))
  {
    if payload == None || (payload.value.allow == None && payload.value.deny == None) {
      return null;
    }
    var lists := PayloadLists(payload.value);
    var allow := NormalizeStrings(lists.allow);
    var deny := NormalizeStrings(lists.deny);
    NamesOfSorted(lists.allow);
    NamesOfSorted(lists.deny);
    r := CompileParent(Some(Lists(allow, deny)));
  }

  /** `ResolveAgentMCPToolFilter`: never null, and one grant for the catalog and the user path alike. */
  method Resolve(agent: Option<Agent>) returns (r: Filter)
    ensures fresh(r) && r.allow == SortedKeys(ParentGrant(FilterFor(agent), HasInbox(agent))) && r.deny == []
    ensures StrictlySorted(r.allow)
    ensures forall id :: id in r.allow <==>
                           ParentMay(FilterFor(agent), agent.Some? && TrimSpace(agent.value.inbox) != "", id)
  {
    r := ResolveGrant(agent);
    forall id ensures id in r.allow <==> ParentMay(FilterFor(agent), HasInbox(agent), id) {
      assert id in r.allow <==> id in Elements(r.allow);
      ParentGrantExactly(FilterFor(agent), HasInbox(agent), id);
    }
  }

  method ResolveGrant(agent: Option<Agent>) returns (r: Filter)
    ensures fresh(r) && r.allow == SortedKeys(ParentGrant(FilterFor(agent), HasInbox(agent))) && r.deny == []
  {
    if agent == None {
      r := CompileParent(None);
      r.ApplyEmailTools(false);
      return;
    }
    var found := FromPayload(agent.value.attached);
    if found == null {
      found := FromPayload(agent.value.stored);
    }
    if found == null {
      found := CompileParent(agent.value.own);
    }
    r := found;
    r.ApplyEmailTools(HasInbox(agent));
  }
}
