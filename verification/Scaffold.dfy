/** The ids of a new agent, as `agent-scaffold.ts` derives and allocates them. */
module Scaffold {
  import opened Options
  import opened Strings
  import Context

  // ---------------------------------------------------------------- slugs

  predicate IsLower(c: char) { 'a' <= c <= 'z' }

  predicate IsPlain(c: char) { IsLower(c) || IsDigit(c) }

  predicate IsSlugChar(c: char) { IsPlain(c) || c == '-' }

  predicate IsDash(c: char) { c == '-' }

  predicate IsOther(c: char) { !IsPlain(c) }

  lemma TrimStartShrinks(blank: CharClass, s: string)
    ensures |TrimStart(blank, s)| <= |s|
    ensures s != "" && blank(s[0]) ==> |TrimStart(blank, s)| < |s|
  {
  }

  /** `s.replace(/[^a-z0-9]+/g, "-")` */
  function Dashed(s: string): string
    decreases |s|
  {
    if s == "" then ""
    else if IsPlain(s[0]) then [s[0]] + Dashed(s[1..])
    else
      TrimStartShrinks(IsOther, s);
      "-" + Dashed(TrimStart(IsOther, s))
  }

  /** `s.replace(/-+/g, "-")` */
  function SingleDashes(s: string): string {
    if |s| < 2 then s
    else if s[0] == '-' && s[1] == '-' then SingleDashes(s[1..])
    else [s[0]] + SingleDashes(s[1..])
  }

  /** How the engine lowers the case of letters. */
  type Lowering = string -> string

  function Slugify(lower: Lowering, value: string): string {
    var slug := SingleDashes(Trim(IsDash, Dashed(lower(Trim(Context.Blank, value)))));
    if slug != "" && IsLower(slug[0]) then slug else "agent-" + if slug == "" then "new" else slug
  }

  predicate NoDoubleDash(s: string) {
    forall i | 0 <= i < |s| - 1 :: !(s[i] == '-' && s[i + 1] == '-')
  }

  /** A letter first, then letters, digits and single dashes, and no dash at the end. */
  predicate IsSlug(s: string) {
    s != "" && IsLower(s[0]) && AllIn(IsSlugChar, s) && NoDoubleDash(s) && s[|s| - 1] != '-'
  }

  lemma {:induction false} TrimStartLeaves(blank: CharClass, s: string)
    ensures TrimStart(blank, s) != "" ==> !blank(TrimStart(blank, s)[0])
  {
    TrimStartSplits(blank, s);
  }

  lemma {:induction false} DashedShape(s: string)
    ensures AllIn(IsSlugChar, Dashed(s)) && NoDoubleDash(Dashed(s))
    ensures s != "" && IsPlain(s[0]) ==> Dashed(s) != "" && Dashed(s)[0] != '-'
    decreases |s|
  {
    if s != "" {
      if IsPlain(s[0]) {
        DashedShape(s[1..]);
      } else {
        var rest := TrimStart(IsOther, s);
        TrimStartShrinks(IsOther, s);
        TrimStartLeaves(IsOther, s);
        DashedShape(rest);
      }
    }
  }

  lemma {:induction false} SingleDashesSame(s: string)
    requires NoDoubleDash(s)
    ensures SingleDashes(s) == s
  {
    if |s| >= 2 {
      forall i | 0 <= i < |s[1..]| - 1 ensures !(s[1..][i] == '-' && s[1..][i + 1] == '-') {
        assert s[1..][i] == s[i + 1] && s[1..][i + 1] == s[i + 2];
      }
      SingleDashesSame(s[1..]);
    }
  }

  /** A part of a well-formed text, from `i` up to `j`. */
  lemma SliceShape(s: string, i: nat, j: nat)
    requires i <= j <= |s| && AllIn(IsSlugChar, s) && NoDoubleDash(s)
    ensures AllIn(IsSlugChar, s[i..j]) && NoDoubleDash(s[i..j])
  {
    var t := s[i..j];
    forall k | 0 <= k < |t| ensures IsSlugChar(t[k]) {
      assert t[k] == s[i + k];
    }
    forall k | 0 <= k < |t| - 1 ensures !(t[k] == '-' && t[k + 1] == '-') {
      assert t[k] == s[i + k] && t[k + 1] == s[i + k + 1];
    }
  }

  lemma TrimShape(s: string)
    requires AllIn(IsSlugChar, s) && NoDoubleDash(s)
    ensures var t := Trim(IsDash, s);
            AllIn(IsSlugChar, t) && NoDoubleDash(t) && (t != "" ==> t[0] != '-' && t[|t| - 1] != '-')
  {
    var front := TrimStart(IsDash, s);
    TrimStartSplits(IsDash, s);
    SliceShape(s, |s| - |front|, |s|);
    assert s[|s| - |front|..|s|] == front;
    TrimEndSplits(IsDash, front);
    SliceShape(front, 0, |TrimEnd(IsDash, front)|);
    assert front[0..|TrimEnd(IsDash, front)|] == TrimEnd(IsDash, front);
  }

  lemma AgentSlug(slug: string)
    requires AllIn(IsSlugChar, slug) && NoDoubleDash(slug) && slug != "" && slug[0] != '-' && slug[|slug| - 1] != '-'
    ensures IsSlug("agent-" + slug)
  {
    var head, s := "agent-", "agent-" + slug;
    assert AllIn(IsSlugChar, head) && NoDoubleDash(head);
    forall i | 0 <= i < |s| ensures IsSlugChar(s[i]) {
      assert s[i] == if i < 6 then head[i] else slug[i - 6];
    }
    forall i | 0 <= i < |s| - 1 ensures !(s[i] == '-' && s[i + 1] == '-') {
      if i < 5 {
        assert s[i] == head[i] && s[i + 1] == head[i + 1];
      } else {
        assert s[i + 1] == slug[i - 5];
        assert i > 5 ==> s[i] == slug[i - 6];
      }
    }
  }

  /** Whatever the name, and however the engine lowers it, the slug is well formed. */
  lemma SlugifyIsSlug(lower: Lowering, value: string)
    ensures IsSlug(Slugify(lower, value))
  {
    var dashed := Dashed(lower(Trim(Context.Blank, value)));
    var trimmed := Trim(IsDash, dashed);
    DashedShape(lower(Trim(Context.Blank, value)));
    TrimShape(dashed);
    SingleDashesSame(trimmed);
    if trimmed == "" {
      AgentSlug("new");
    } else if !IsLower(trimmed[0]) {
      AgentSlug(trimmed);
    }
  }

  // ---------------------------------------------------------------- slugs stay as they are

  /** Lowering leaves small letters, digits and dashes alone. */
  ghost predicate KeepsSlugs(lower: Lowering) {
    forall s :: AllIn(IsSlugChar, s) ==> lower(s) == s
  }

  lemma {:induction false} DashedSame(s: string)
    requires AllIn(IsSlugChar, s) && NoDoubleDash(s) && (s != "" ==> s[|s| - 1] != '-')
    ensures Dashed(s) == s
    decreases |s|
  {
    if s != "" {
      SliceShape(s, 1, |s|);
      assert s[1..|s|] == s[1..] && s == [s[0]] + s[1..];
      if s[0] == '-' {
        assert IsPlain(s[1]);
        assert TrimStart(IsOther, s) == s[1..];
      }
      DashedSame(s[1..]);
    }
  }

  lemma TrimSame(blank: CharClass, s: string)
    requires s != "" && !blank(s[0]) && !blank(s[|s| - 1])
    ensures Trim(blank, s) == s
  {
  }

  lemma SlugCharIsNotBlank(c: char)
    requires IsSlugChar(c)
    ensures !Context.Blank(c)
  {
  }

  /** The slugs are exactly the names that are their own slug. */
  lemma SlugifyKeepsIff(lower: Lowering, s: string)
    requires KeepsSlugs(lower)
    ensures Slugify(lower, s) == s <==> IsSlug(s)
  {
    SlugifyIsSlug(lower, s);
    if IsSlug(s) {
      SlugCharIsNotBlank(s[0]);
      SlugCharIsNotBlank(s[|s| - 1]);
      TrimSame(Context.Blank, s);
      DashedSame(s);
      TrimSame(IsDash, s);
      SingleDashesSame(s);
    }
  }

  lemma SlugifyIdempotent(lower: Lowering, value: string)
    requires KeepsSlugs(lower)
    ensures Slugify(lower, Slugify(lower, value)) == Slugify(lower, value)
  {
    SlugifyIsSlug(lower, value);
    SlugifyKeepsIff(lower, Slugify(lower, value));
  }

  // ---------------------------------------------------------------- namespaced ids

  predicate IsIdPart(s: string) {
    s != "" && IsLower(s[0]) && AllIn(IsSlugChar, s)
  }

  /** The pattern `^[a-z][a-z0-9-]*(\.[a-z][a-z0-9-]*)+$`. */
  predicate IsNamespaced(s: string) {
    var parts := Split(s, '.');
    |parts| >= 2 && forall i | 0 <= i < |parts| :: IsIdPart(parts[i])
  }

  lemma NoDot(s: string)
    requires AllIn(IsSlugChar, s)
    ensures '.' !in s
  {
  }

  lemma AppendPart(base: string, part: string)
    requires IsIdPart(part)
    requires forall i | 0 <= i < |Split(base, '.')| :: IsIdPart(Split(base, '.')[i])
    ensures IsNamespaced(base + "." + part)
  {
    NoDot(part);
    SplitAtSeparator(base, part, '.');
    SplitWhole(part, '.');
  }

  lemma {:induction false} SplitAppend(s: string, t: string, separator: char)
    requires separator !in t
    ensures var parts := Split(s, separator);
            Split(s + t, separator) == parts[..|parts| - 1] + [parts[|parts| - 1] + t]
  {
    if s == "" {
      SplitWhole(t, separator);
      assert s + t == t;
    } else {
      assert (s + t)[1..] == s[1..] + t;
      SplitAppend(s[1..], t, separator);
      var rest := Split(s[1..], separator);
      if s[0] == separator {
        assert ([""] + rest)[..|rest|] == [""] + rest[..|rest| - 1];
      } else {
        GrowLast(s[0], rest, t);
      }
    }
  }

  lemma GrowLast(c: char, parts: seq<string>, t: string)
    requires parts != []
    ensures var grown, n := Grow(c, parts), |parts| - 1;
            Grow(c, parts[..n] + [parts[n] + t]) == grown[..n] + [grown[n] + t]
  {
    var n := |parts| - 1;
    if n == 0 {
      assert [c] + (parts[0] + t) == [c] + parts[0] + t;
    } else {
      assert (parts[..n] + [parts[n] + t])[1..] == parts[1..][..n - 1] + [parts[n] + t];
    }
  }

  /** More letters, digits and dashes at the end keep an id namespaced. */
  lemma SuffixKeepsNamespaced(base: string, suffix: string)
    requires IsNamespaced(base) && AllIn(IsSlugChar, suffix)
    ensures IsNamespaced(base + suffix)
  {
    NoDot(suffix);
    SplitAppend(base, suffix, '.');
    var parts := Split(base, '.');
    assert IsIdPart(parts[|parts| - 1]);
    assert IsIdPart(parts[|parts| - 1] + suffix);
  }

  // ---------------------------------------------------------------- allocation

  datatype Allocation = Allocated(id: string) | Underivable | Invalid | Duplicate | Exhausted

  const LAST := 9_999

  function Candidate(base: string, k: nat): string {
    if k <= 1 then base else base + "-" + Decimal(k)
  }

  ghost predicate TakenUpTo(base: string, existing: set<string>, k: nat) {
    forall j | 1 <= j <= k :: Candidate(base, j) in existing
  }

  method AllocateNamespacedId(base: string, existing: set<string>) returns (r: Allocation)
    ensures r == Underivable <==> !IsNamespaced(base)
    ensures r == Exhausted <==> IsNamespaced(base) && TakenUpTo(base, existing, LAST)
    ensures r.Allocated? || r.Underivable? || r.Exhausted?
    ensures r.Allocated? ==>
              exists k | 1 <= k <= LAST :: r.id == Candidate(base, k) && r.id !in existing && TakenUpTo(base, existing, k - 1)
    ensures r.Allocated? && base !in existing ==> r.id == base
    ensures r.Allocated? && base in existing ==>
              exists k | 2 <= k < 10_000 ::
                r.id == base + "-" + Decimal(k) && r.id !in existing && forall j | 2 <= j < k :: base + "-" + Decimal(j) in existing
  {
    if !IsNamespaced(base) {
      return Underivable;
    }
    if base !in existing {
      assert Candidate(base, 1) == base;
      return Allocated(base);
    }
    for index := 2 to 10_000
      invariant TakenUpTo(base, existing, index - 1)
      invariant forall j | 2 <= j < index :: base + "-" + Decimal(j) in existing
    {
      var candidate := base + "-" + Decimal(index);
      assert candidate == Candidate(base, index);
      if candidate !in existing {
        return Allocated(candidate);
      }
    }
    return Exhausted;
  }

  lemma {:induction false} DecimalChars(n: nat)
    ensures AllIn(IsSlugChar, Decimal(n))
  {
    assert forall k | 0 <= k < 10 :: IsSlugChar(DIGITS[k]);
    if n >= 10 {
      DecimalChars(n / 10);
    }
  }

  lemma CandidateIsNamespaced(base: string, k: nat)
    requires IsNamespaced(base)
    ensures IsNamespaced(Candidate(base, k))
  {
    if k > 1 {
      var suffix := "-" + Decimal(k);
      DecimalChars(k);
      assert AllIn(IsSlugChar, suffix);
      SuffixKeepsNamespaced(base, suffix);
      assert base + suffix == base + "-" + Decimal(k);
    }
  }

  lemma CandidatesDiffer(base: string, j: nat, k: nat)
    requires 1 <= j < k
    ensures Candidate(base, j) != Candidate(base, k)
  {
    var head := base + "-";
    assert Candidate(base, k) == head + Decimal(k) && |Candidate(base, k)| > |base|;
    if j > 1 && Candidate(base, j) == Candidate(base, k) {
      assert Candidate(base, j) == head + Decimal(j);
      assert Decimal(j) == (head + Decimal(j))[|head|..] == (head + Decimal(k))[|head|..] == Decimal(k);
      DecimalInjective(j, k);
    }
  }

  lemma {:induction false} TakenNeedsMany(base: string, existing: set<string>, k: nat) returns (taken: set<string>)
    requires TakenUpTo(base, existing, k)
    ensures taken <= existing && |taken| == k
    ensures forall id | id in taken :: exists j | 1 <= j <= k :: id == Candidate(base, j)
  {
    if k == 0 {
      return {};
    }
    var fewer := TakenNeedsMany(base, existing, k - 1);
    if Candidate(base, k) in fewer {
      var j :| 1 <= j <= k - 1 && Candidate(base, k) == Candidate(base, j);
      CandidatesDiffer(base, j, k);
    }
    taken := fewer + {Candidate(base, k)};
  }

  lemma {:induction false} SubsetSize<T>(a: set<T>, b: set<T>)
    requires a <= b
    ensures |a| <= |b|
  {
    if a != {} {
      var x :| x in a;
      SubsetSize(a - {x}, b - {x});
    }
  }

  /** Allocation cannot fail while there are fewer than 9,999 ids. */
  lemma NeverExhausted(base: string, existing: set<string>)
    requires |existing| < LAST
    ensures !TakenUpTo(base, existing, LAST)
  {
    if TakenUpTo(base, existing, LAST) {
      var taken := TakenNeedsMany(base, existing, LAST);
      SubsetSize(taken, existing);
    }
  }

  method ValidateExplicitId(value: string, existing: set<string>) returns (r: Allocation)
    ensures var id := Trim(Context.Blank, value);
            r == if !IsNamespaced(id) then Invalid else if id in existing then Duplicate else Allocated(id)
  {
    var normalized := Trim(Context.Blank, value);
    if !IsNamespaced(normalized) {
      return Invalid;
    }
    if normalized in existing {
      return Duplicate;
    }
    return Allocated(normalized);
  }

  // ---------------------------------------------------------------- ids in use

  /** An agent as a plugin refers to it; the empty text stands for a field that is not there. */
  datatype Reference = Reference(id: string, path: string)

  /** A plugin's manifest, and the ids that the agent files it refers to declare. */
  datatype PluginRoot = PluginRoot(pluginId: string, agents: seq<Reference>, documents: map<string, string>)

  predicate Declares(root: PluginRoot, j: nat, id: string) {
    && j < |root.agents|
    && (|| root.agents[j].id == id
        || (root.agents[j].path != "" && Get(root.documents, root.agents[j].path) == Some(id)))
  }

  ghost predicate DeclaredBefore(root: PluginRoot, j: nat, id: string) {
    exists k: nat | k < j :: Declares(root, k, id)
  }

  lemma DeclaredNext(root: PluginRoot, j: nat, id: string)
    ensures DeclaredBefore(root, j + 1, id) <==> DeclaredBefore(root, j, id) || Declares(root, j, id)
  {
    if DeclaredBefore(root, j + 1, id) {
      var k: nat :| k < j + 1 && Declares(root, k, id);
      assert k == j || k < j;
    }
    assert Declares(root, j, id) ==> DeclaredBefore(root, j + 1, id);
  }

  method CollectExistingIdentities(roots: seq<PluginRoot>) returns (pluginIds: set<string>, agentIds: set<string>)
    ensures forall id :: id in pluginIds <==> id != "" && exists i | 0 <= i < |roots| :: roots[i].pluginId == id
    ensures forall id :: id in agentIds <==> id != "" && exists i, j: nat | 0 <= i < |roots| :: Declares(roots[i], j, id)
  {
    pluginIds, agentIds := {}, {};
    for i := 0 to |roots|
      invariant forall id :: id in pluginIds <==> id != "" && exists k | 0 <= k < i :: roots[k].pluginId == id
      invariant forall id :: id in agentIds <==> id != "" && exists k, j: nat | 0 <= k < i :: Declares(roots[k], j, id)
    {
      if roots[i].pluginId != "" {
        pluginIds := pluginIds + {roots[i].pluginId};
      }
      var declared := CollectAgents(roots[i]);
      agentIds := agentIds + declared;
    }
  }

  /** The inner loop. */
  method CollectAgents(root: PluginRoot) returns (ids: set<string>)
    ensures forall id :: id in ids <==> id != "" && exists j: nat :: Declares(root, j, id)
  {
    ids := {};
    for j := 0 to |root.agents|
      invariant forall id :: id in ids <==> id != "" && DeclaredBefore(root, j, id)
    {
      var reference := root.agents[j];
      if reference.id != "" {
        ids := ids + {reference.id};
      }
      if reference.path != "" && reference.path in root.documents && root.documents[reference.path] != "" {
        ids := ids + {root.documents[reference.path]};
      }
      forall id ensures DeclaredBefore(root, j + 1, id) <==> DeclaredBefore(root, j, id) || Declares(root, j, id) {
        DeclaredNext(root, j, id);
      }
    }
  }

  // ---------------------------------------------------------------- the new agent

  datatype Result = Ids(pluginId: string, agentId: string) | EmptyName | Refused(why: Allocation)

  lemma LocalBase(slug: string)
    requires IsSlug(slug)
    ensures IsNamespaced("local." + slug)
  {
    NoDot("local");
    SplitWhole("local", '.');
    AppendPart("local", slug);
    assert "local" + "." + slug == "local." + slug;
  }

  lemma AgentBase(pluginId: string)
    requires IsNamespaced(pluginId)
    ensures IsNamespaced(pluginId + ".agent")
  {
    AppendPart(pluginId, "agent");
    assert pluginId + "." + "agent" == pluginId + ".agent";
  }

  /** A given id is well formed and new; without one, there is a free id to derive. */
  predicate IsUsable(given: string, existing: set<string>) {
    if given == "" then |existing| < LAST
    else IsNamespaced(Trim(Context.Blank, given)) && Trim(Context.Blank, given) !in existing
  }

  /** The ids of the new agent are well formed and new. Ids that are derived from its name are never
      refused while fewer than 9,999 are in use; an id that is given is taken as it is, but for blanks
      around it, or refused. */
  method ScaffoldIds(
    lower: Lowering, name: string, pluginId: string, agentId: string, plugins: set<string>, agents: set<string>)
    returns (r: Result)
    ensures r == EmptyName <==> Trim(Context.Blank, name) == ""
    ensures r.Ids? ==>
              && IsNamespaced(r.pluginId) && r.pluginId !in plugins
              && IsNamespaced(r.agentId) && r.agentId !in agents
    ensures r.Ids? && pluginId != "" ==> r.pluginId == Trim(Context.Blank, pluginId)
    ensures r.Ids? && agentId != "" ==> r.agentId == Trim(Context.Blank, agentId)
    ensures r.Ids? && pluginId == "" ==>
              exists k | 1 <= k <= LAST ::
                && r.pluginId == Candidate("local." + Slugify(lower, Trim(Context.Blank, name)), k)
                && TakenUpTo("local." + Slugify(lower, Trim(Context.Blank, name)), plugins, k - 1)
    ensures r.Ids? && agentId == "" ==>
              exists k | 1 <= k <= LAST ::
                r.agentId == Candidate(r.pluginId + ".agent", k) && TakenUpTo(r.pluginId + ".agent", agents, k - 1)
    ensures Trim(Context.Blank, name) != "" && IsUsable(pluginId, plugins) && IsUsable(agentId, agents) ==> r.Ids?
    ensures Trim(Context.Blank, name) != "" && pluginId != "" && !IsUsable(pluginId, plugins) ==>
              r == Refused(if IsNamespaced(Trim(Context.Blank, pluginId)) then Duplicate else Invalid)
    ensures r.Refused? ==> r.why != Underivable
  {
    var trimmed := Trim(Context.Blank, name);
    if trimmed == "" {
      return EmptyName;
    }
    var slug := Slugify(lower, trimmed);
    SlugifyIsSlug(lower, trimmed);
    LocalBase(slug);
    var plugin: Allocation;
    if pluginId != "" {
      plugin := ValidateExplicitId(pluginId, plugins);
    } else {
      plugin := AllocateNamespacedId("local." + slug, plugins);
      DerivedIsNamespaced("local." + slug);
      if |plugins| < LAST {
        NeverExhausted("local." + slug, plugins);
      }
    }
    if !plugin.Allocated? {
      return Refused(plugin);
    }
    AgentBase(plugin.id);
    var agent: Allocation;
    if agentId != "" {
      agent := ValidateExplicitId(agentId, agents);
    } else {
      agent := AllocateNamespacedId(plugin.id + ".agent", agents);
      DerivedIsNamespaced(plugin.id + ".agent");
      if |agents| < LAST {
        NeverExhausted(plugin.id + ".agent", agents);
      }
    }
    if !agent.Allocated? {
      return Refused(agent);
    }
    return Ids(plugin.id, agent.id);
  }

  lemma DerivedIsNamespaced(base: string)
    requires IsNamespaced(base)
    ensures forall k: nat :: IsNamespaced(Candidate(base, k))
  {
    forall k: nat ensures IsNamespaced(Candidate(base, k)) {
      CandidateIsNamespaced(base, k);
    }
  }
}
