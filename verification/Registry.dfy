/** Selecting one implementation for every capability and ordering the selection. */
module Registry {
  import opened Contracts
  import opened Dependencies

  datatype Requirement = Requirement(capability: string, implementation: Option<string>)

  /** The static part of a provider; `claims` are its (category, name) pairs. */
  datatype Descriptor = Descriptor(
    capability: string,
    implementation: string,
    requires_: seq<Requirement>,
    claims: set<(string, string)>)

  datatype KernelError =
    | Unavailable(capability: string)
    | Ambiguous(capability: string)
    | Collision(capability: string)
    | Cycle(path: seq<string>)
    | Malformed(capability: string)
    | HostClosed

  type Index = map<string, map<string, Descriptor>>

  /** Every descriptor sits under its own names. */
  ghost predicate ValidIndex(index: Index) {
    && (forall c :: c in index ==> index[c] != map[])
    && (forall c, i :: c in index && i in index[c] ==> index[c][i].capability == c && index[c][i].implementation == i)
  }

  predicate SameIdentity(a: Descriptor, b: Descriptor) {
    a.capability == b.capability && a.implementation == b.implementation
  }

  ghost predicate Has(index: Index, d: Descriptor) {
    d.capability in index && d.implementation in index[d.capability] && index[d.capability][d.implementation] == d
  }

  function Claimed(index: Index, capability: string): map<string, Descriptor> {
    if capability in index then index[capability] else map[]
  }

  function AddProvider(index: Index, d: Descriptor): Index {
    index[d.capability := Claimed(index, d.capability)[d.implementation := d]]
  }

  lemma {:induction false} AddKeeps(index: Index, d: Descriptor, e: Descriptor)
    requires ValidIndex(index) && d.implementation !in Claimed(index, d.capability)
    ensures ValidIndex(AddProvider(index, d))
    ensures Has(AddProvider(index, d), e) <==> Has(index, e) || e == d
  {
  }

  /** The constructor of the registry: providers indexed by capability, then by implementation. */
  method BuildIndex(providers: seq<Descriptor>) returns (r: Result<Index, KernelError>)
    ensures r.Ok? <==> forall i, j :: 0 <= i < j < |providers| ==> !SameIdentity(providers[i], providers[j])
    ensures r.Ok? ==> ValidIndex(r.value) && forall d :: Has(r.value, d) <==> d in providers
    ensures r.Err? ==> exists i, j ::
      && 0 <= i < j < |providers| && SameIdentity(providers[i], providers[j])
      && r.error == Collision(providers[j].capability)
  {
    var index: Index := map[];
    for k := 0 to |providers|
      invariant ValidIndex(index)
      invariant forall d :: Has(index, d) <==> d in providers[..k]
      invariant forall i, j :: 0 <= i < j < k ==> !SameIdentity(providers[i], providers[j])
    {
      var d := providers[k];
      if d.implementation in Claimed(index, d.capability) {
        ghost var e := index[d.capability][d.implementation];
        assert Has(index, e);
        ghost var i :| 0 <= i < k && providers[..k][i] == e;
        assert SameIdentity(providers[i], providers[k]);
        return Err(Collision(d.capability));
      }
      forall i | 0 <= i < k ensures !SameIdentity(providers[i], d) {
        assert providers[i] in providers[..k];
        assert Has(index, providers[i]);
      }
      forall e ensures Has(AddProvider(index, d), e) <==> Has(index, e) || e == d { AddKeeps(index, d, e); }
      AddKeeps(index, d, d);
      assert providers[..k + 1] == providers[..k] + [d];
      index := AddProvider(index, d);
    }
    assert providers[..|providers|] == providers;
    return Ok(index);
  }

  /** `select`: a named implementation must exist, and without a name there must be exactly one. */
  function Select(index: Index, capability: string, implementation: Option<string>)
    : (r: Result<Descriptor, KernelError>)
    ensures r.Err? ==> r.error in {Unavailable(capability), Ambiguous(capability)}
  {
    if capability !in index || index[capability] == map[] then Err(Unavailable(capability))
    else
      var candidates := index[capability];
      match implementation
      case Some(i) => if i in candidates then Ok(candidates[i]) else Err(Unavailable(capability))
      case None =>
        if |candidates| > 1 then Err(Ambiguous(capability))
        else Ok(Only(candidates))
  }

  /** The single value of a one-entry map. */
  function Only(candidates: map<string, Descriptor>): Descriptor
    requires candidates != map[] && |candidates| <= 1
  {
    OneKey(candidates);
    var k :| k in candidates;
    candidates[k]
  }

  lemma {:induction false} OneKey(candidates: map<string, Descriptor>)
    requires |candidates| <= 1
    ensures forall k, l :: k in candidates && l in candidates ==> k == l
  {
    forall k, l | k in candidates && l in candidates ensures k == l {
      assert candidates.Keys == {k} + (candidates.Keys - {k});
      assert |candidates.Keys - {k}| == 0;
    }
  }

  /** The provider is for this capability, and is the one asked for if one is. */
  ghost predicate Suits(index: Index, d: Descriptor, capability: string, implementation: Option<string>) {
    && Has(index, d) && d.capability == capability
    && (implementation.Some? ==> d.implementation == implementation.value)
  }

  /** A selection succeeds exactly when one provider suits. It is unavailable when none does, and ambiguous when there
      are several, which naming an implementation rules out. */
  lemma {:induction false} SelectExactly(index: Index, capability: string, implementation: Option<string>,
          d: Descriptor)
    requires ValidIndex(index)
    ensures var r := Select(index, capability, implementation);
      && (r == Ok(d) <==>
            && Suits(index, d, capability, implementation)
            && forall e :: Suits(index, e, capability, implementation) ==> e == d)
      && (r == Err(Unavailable(capability)) <==> forall e :: !Suits(index, e, capability, implementation))
      && (r == Err(Ambiguous(capability)) <==> exists e, f ::
            Suits(index, e, capability, implementation) && Suits(index, f, capability, implementation) && e != f)
  {
    if capability in index {
      var candidates := index[capability];
      forall i | i in candidates
        ensures Suits(index, candidates[i], capability, Some(i)) && Suits(index, candidates[i], capability, None)
      {
      }
      if implementation.None? {
        var some :| some in candidates;
        ManyKeys(candidates);
        if |candidates| <= 1 {
          OneKey(candidates);
          assert Select(index, capability, implementation) == Ok(candidates[some]);
        } else {
          var k, l :| k in candidates && l in candidates && k != l;
          assert candidates[k] != candidates[l];
        }
      }
    }
  }

  lemma {:induction false} ManyKeys(candidates: map<string, Descriptor>)
    ensures |candidates| > 1 ==> exists k, l :: k in candidates && l in candidates && k != l
  {
    if |candidates| > 1 {
      var k :| k in candidates.Keys;
      assert candidates.Keys == {k} + (candidates.Keys - {k});
      var l :| l in candidates.Keys - {k};
    }
  }

  function Chosen(selection: map<string, string>, capability: string): Option<string> {
    if capability in selection then Some(selection[capability]) else None
  }

  // ---- what a snapshot demands

  ghost predicate Selectable(index: Index, selection: map<string, string>) {
    && (forall c :: c in index ==> Select(index, c, Chosen(selection, c)).Ok?)
    && (forall c :: c in selection ==> c in index)
  }

  predicate Met(selected: map<string, Descriptor>, r: Requirement) {
    && r.capability in selected
    && (r.implementation.Some? ==> selected[r.capability].implementation == r.implementation.value)
  }

  predicate AllMet(selected: map<string, Descriptor>, requirements: seq<Requirement>) {
    forall i :: 0 <= i < |requirements| ==> Met(selected, requirements[i])
  }

  predicate RequirementsMet(selected: map<string, Descriptor>) {
    forall c :: c in selected ==> AllMet(selected, selected[c].requires_)
  }

  predicate ClaimsDisjoint(selected: map<string, Descriptor>) {
    forall a, b :: a in selected && b in selected && a != b ==> selected[a].claims !! selected[b].claims
  }

  function RequiredNames(requirements: seq<Requirement>): (names: seq<string>)
    ensures |names| == |requirements|
    ensures forall i :: 0 <= i < |requirements| ==> names[i] == requirements[i].capability
  {
    seq(|requirements|, i requires 0 <= i < |requirements| => requirements[i].capability)
  }

  function RequirementGraph(selected: map<string, Descriptor>): Graph {
    map c | c in selected :: RequiredNames(selected[c].requires_)
  }

  /** The selection that the choices leave, once every capability can be selected. */
  ghost function SelectedMap(index: Index, selection: map<string, string>): map<string, Descriptor>
    requires Selectable(index, selection)
  {
    map c | c in index :: Select(index, c, Chosen(selection, c)).value
  }

  // ---- what a refusal says

  /** Some selection fails with this error, or a choice is for a capability that nobody provides. */
  ghost predicate SelectionFault(index: Index, selection: map<string, string>, e: KernelError) {
    || (exists c :: c in index && Select(index, c, Chosen(selection, c)) == Err(e))
    || (exists c :: c in selection && c !in index && e == Unavailable(c))
  }

  /** The error names an unmet requirement of a selected provider. */
  ghost predicate RequirementFault(selected: map<string, Descriptor>, e: KernelError) {
    exists c, r :: c in selected && r in selected[c].requires_ && !Met(selected, r) && e == Unavailable(r.capability)
  }

  /** The error names a provider that shares a claim with another. */
  ghost predicate ClaimFault(selected: map<string, Descriptor>, e: KernelError) {
    exists a, b ::
      && a in selected && b in selected && a != b
      && !(selected[a].claims !! selected[b].claims) && e == Collision(b)
  }

  /** The selections made for the first names. */
  ghost predicate SelectedFor(index: Index, selection: map<string, string>, names: seq<string>,
          selected: map<string, Descriptor>) {
    && (forall c :: c in selected <==> c in names)
    && (forall c :: c in selected ==> Select(index, c, Chosen(selection, c)) == Ok(selected[c]))
  }

  lemma {:induction false} SelectNext(index: Index, selection: map<string, string>, names: seq<string>, k: nat,
          selected: map<string, Descriptor>, chosen: Descriptor)
    requires k < |names| && SelectedFor(index, selection, names[..k], selected)
    requires Select(index, names[k], Chosen(selection, names[k])) == Ok(chosen)
    ensures SelectedFor(index, selection, names[..k + 1], selected[names[k] := chosen])
  {
    assert names[..k + 1] == names[..k] + [names[k]];
  }

  /** The first loop: one selection for every known capability. */
  method SelectKnown(index: Index, selection: map<string, string>)
    returns (r: Result<map<string, Descriptor>, KernelError>)
    ensures r.Ok? <==> forall c :: c in index ==> Select(index, c, Chosen(selection, c)).Ok?
    ensures r.Ok? ==>
      && r.value.Keys == index.Keys
      && forall c :: c in index ==> Select(index, c, Chosen(selection, c)) == Ok(r.value[c])
    ensures r.Err? ==> SelectionFault(index, selection, r.error)
  {
    var selected: map<string, Descriptor> := map[];
    var names := SortedNames(index.Keys);
    for k := 0 to |names|
      invariant SelectedFor(index, selection, names[..k], selected)
    {
      var name := names[k];
      assert name in names && name in index;
      var candidate := Select(index, name, Chosen(selection, name));
      if candidate.Err? {
        return Err(candidate.error);
      }
      SelectNext(index, selection, names, k, selected, candidate.value);
      selected := selected[name := candidate.value];
    }
    assert names[..|names|] == names;
    assert forall c :: c in index.Keys <==> c in selected;
    return Ok(selected);
  }

  /** The second loop: a choice for a capability that nobody provides is refused. */
  method SelectAll(index: Index, selection: map<string, string>)
    returns (r: Result<map<string, Descriptor>, KernelError>)
    ensures r.Ok? <==> Selectable(index, selection)
    ensures r.Ok? ==> r.value == SelectedMap(index, selection)
    ensures r.Err? ==> SelectionFault(index, selection, r.error)
  {
    r := SelectKnown(index, selection);
    if r.Err? {
      FaultBlocks(index, selection, r.error);
      return;
    }
    var asked := SortedNames(selection.Keys);
    for k := 0 to |asked|
      invariant forall j :: 0 <= j < k ==> asked[j] in index
    {
      assert asked[k] in asked;
      if asked[k] !in r.value {
        UnknownChoice(index, selection, asked[k]);
        return Err(Unavailable(asked[k]));
      }
    }
    ChoicesSelect(index, selection, asked, r.value);
  }

  lemma {:induction false} FaultBlocks(index: Index, selection: map<string, string>, e: KernelError)
    requires SelectionFault(index, selection, e)
    ensures !Selectable(index, selection)
  {
  }

  lemma {:induction false} UnknownChoice(index: Index, selection: map<string, string>, c: string)
    requires c in selection && c !in index
    ensures !Selectable(index, selection) && SelectionFault(index, selection, Unavailable(c))
  {
  }

  lemma {:induction false} ChoicesSelect(index: Index, selection: map<string, string>, asked: seq<string>,
          selected: map<string, Descriptor>)
    requires forall x :: x in asked <==> x in selection
    requires forall j :: 0 <= j < |asked| ==> asked[j] in index
    requires selected.Keys == index.Keys && forall c :: c in index ==>
      Select(index, c, Chosen(selection, c)) == Ok(selected[c])
    ensures Selectable(index, selection) && selected == SelectedMap(index, selection)
  {
    forall c | c in selection ensures c in index {
      assert c in asked;
    }
    forall c | c in index ensures Select(index, c, Chosen(selection, c)).value == selected[c] {
      assert Select(index, c, Chosen(selection, c)) == Ok(selected[c]);
    }
  }

  method ValidateRequirements(selected: map<string, Descriptor>) returns (failure: Option<KernelError>)
    ensures failure.None? <==> RequirementsMet(selected)
    ensures failure.Some? ==> RequirementFault(selected, failure.value)
  {
    var names := SortedNames(selected.Keys);
    for k := 0 to |names|
      invariant forall j :: 0 <= j < k ==> names[j] in selected && AllMet(selected, selected[names[j]].requires_)
    {
      assert names[k] in names;
      var requirements := selected[names[k]].requires_;
      for i := 0 to |requirements|
        invariant forall l :: 0 <= l < i ==> Met(selected, requirements[l])
      {
        var needed := requirements[i];
        if needed.capability !in selected {
          return Some(Unavailable(needed.capability));
        }
        if needed.implementation.Some? && selected[needed.capability].implementation != needed.implementation.value {
          return Some(Unavailable(needed.capability));
        }
      }
    }
    return None;
  }

  /** The claims of the first providers, gathered. */
  function Gathered(selected: map<string, Descriptor>, names: seq<string>): set<(string, string)>
    requires forall i :: 0 <= i < |names| ==> names[i] in selected
  {
    if names == [] then {} else Gathered(selected, names[..|names| - 1]) + selected[names[|names| - 1]].claims
  }

  lemma {:induction false} GatheredFrom(selected: map<string, Descriptor>, names: seq<string>, x: (string, string))
    requires forall i :: 0 <= i < |names| ==> names[i] in selected
    ensures x in Gathered(selected, names) <==> exists i :: 0 <= i < |names| && x in selected[names[i]].claims
  {
    if names != [] {
      GatheredFrom(selected, names[..|names| - 1], x);
    }
  }

  /** Claims are gathered one provider at a time; each provider's must be new. */
  method ValidateClaims(selected: map<string, Descriptor>) returns (failure: Option<KernelError>)
    ensures failure.None? <==> ClaimsDisjoint(selected)
    ensures failure.Some? ==> ClaimFault(selected, failure.value)
  {
    var claims: set<(string, string)> := {};
    var names := SortedNames(selected.Keys);
    assert forall i :: 0 <= i < |names| ==> names[i] in names;
    for k := 0 to |names|
      invariant claims == Gathered(selected, names[..k])
      invariant FirstDisjoint(selected, names, k)
    {
      var own := selected[names[k]].claims;
      if !(own !! claims) {
        ghost var x :| x in own && x in claims;
        ClaimClash(selected, names, k, x);
        return Some(Collision(names[k]));
      }
      NoClash(selected, names, k);
      assert names[..k + 1][..k] == names[..k];
      claims := claims + own;
    }
    PairwiseDisjoint(selected, names);
    return None;
  }

  lemma {:induction false} ClaimClash(selected: map<string, Descriptor>, names: seq<string>, k: nat,
          x: (string, string))
    requires Distinct(names) && (forall i :: 0 <= i < |names| ==> names[i] in selected) && k < |names|
    requires x in selected[names[k]].claims && x in Gathered(selected, names[..k])
    ensures ClaimFault(selected, Collision(names[k]))
  {
    GatheredFrom(selected, names[..k], x);
    var j :| 0 <= j < k && x in selected[names[..k][j]].claims;
    assert names[j] != names[k] && !(selected[names[j]].claims !! selected[names[k]].claims);
  }

  /** The claims of the first `n` names do not overlap. */
  ghost predicate FirstDisjoint(selected: map<string, Descriptor>, names: seq<string>, n: nat)
    requires n <= |names| && forall i :: 0 <= i < |names| ==> names[i] in selected
  {
    forall i, j :: 0 <= i < j < n ==> selected[names[i]].claims !! selected[names[j]].claims
  }

  lemma {:induction false} NoClash(selected: map<string, Descriptor>, names: seq<string>, k: nat)
    requires (forall i :: 0 <= i < |names| ==> names[i] in selected) && k < |names|
    requires FirstDisjoint(selected, names, k) && selected[names[k]].claims !! Gathered(selected, names[..k])
    ensures FirstDisjoint(selected, names, k + 1)
  {
    forall i, x | 0 <= i < k && x in selected[names[i]].claims ensures x !in selected[names[k]].claims {
      GatheredFrom(selected, names[..k], x);
      assert names[..k][i] == names[i];
    }
  }

  lemma {:induction false} PairwiseDisjoint(selected: map<string, Descriptor>, names: seq<string>)
    requires forall x :: x in names <==> x in selected
    requires forall i, j :: 0 <= i < j < |names| ==>
      names[i] in selected && names[j] in selected && selected[names[i]].claims !! selected[names[j]].claims
    ensures ClaimsDisjoint(selected)
  {
    forall a, b | a in selected && b in selected && a != b ensures selected[a].claims !! selected[b].claims {
      assert a in names && b in names;
      var i :| 0 <= i < |names| && names[i] == a;
      var j :| 0 <= j < |names| && names[j] == b;
      if i < j {
        assert selected[names[i]].claims !! selected[names[j]].claims;
      } else {
        assert selected[names[j]].claims !! selected[names[i]].claims;
      }
    }
  }

  /** Everything a snapshot demands apart from the absence of cycles. */
  ghost predicate Consistent(index: Index, selection: map<string, string>) {
    && Selectable(index, selection)
    && RequirementsMet(SelectedMap(index, selection))
    && ClaimsDisjoint(SelectedMap(index, selection))
  }

  /** A snapshot: the selection, and its capabilities in dependency order. */
  datatype Snapshot = Snapshot(selected: map<string, Descriptor>, order: seq<string>)

  /** What the error of a refused snapshot tells: the first of the four checks that fails, and where. */
  ghost predicate Reason(index: Index, selection: map<string, string>, e: KernelError) {
    if !Selectable(index, selection) then SelectionFault(index, selection, e)
    else
      var selected := SelectedMap(index, selection);
      if !RequirementsMet(selected) then RequirementFault(selected, e)
      else if !ClaimsDisjoint(selected) then ClaimFault(selected, e)
      else e.Cycle? && ClosesCycle(RequirementGraph(selected), e.path)
  }

  /** `snapshot`: it succeeds exactly when every capability can be selected, every requirement is met, no claim is
      shared and no capability depends on itself; then it lists every capability once, after everything it requires. */
  method TakeSnapshot(index: Index, selection: map<string, string>) returns (r: Result<Snapshot, KernelError>)
    ensures r.Ok? <==> Consistent(index, selection) && Acyclic(RequirementGraph(SelectedMap(index, selection)))
    ensures r.Ok? ==> r.value.selected == SelectedMap(index, selection)
    ensures r.Ok? ==> DependencyOrder(RequirementGraph(r.value.selected), r.value.order)
    ensures r.Err? && r.error.Cycle?
      <==> Consistent(index, selection) && !Acyclic(RequirementGraph(SelectedMap(index, selection)))
    ensures r.Err? ==> Reason(index, selection, r.error)
  {
    var selected := SelectAll(index, selection);
    if selected.Err? {
      return Err(selected.error);
    }
    var failure := ValidateRequirements(selected.value);
    if failure.Some? {
      return Err(failure.value);
    }
    failure := ValidateClaims(selected.value);
    if failure.Some? {
      return Err(failure.value);
    }
    RequirementsClose(selected.value);
    var order := ComputeDependencyOrder(RequirementGraph(selected.value));
    if order.Err? {
      return Err(Cycle(order.error));
    }
    return Ok(Snapshot(selected.value, order.value));
  }

  lemma {:induction false} RequirementsClose(selected: map<string, Descriptor>)
    requires RequirementsMet(selected)
    ensures Closed(RequirementGraph(selected))
  {
    var g := RequirementGraph(selected);
    forall a, b | a in g && b in g[a] ensures b in g {
      var i :| 0 <= i < |g[a]| && g[a][i] == b;
      assert Met(selected, selected[a].requires_[i]);
    }
  }
}
