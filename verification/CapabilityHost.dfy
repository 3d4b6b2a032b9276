/** Lazy construction of the selected providers: a re-entrant, memoizing builder with a runtime cycle check. */
module CapabilityHost {
  import opened Contracts
  import opened Dependencies
  import opened Registry

  /** One `require` call inside a provider's build: whether the port it asks for exists and fits, and whether the
      provider survives when the call fails. */
  datatype BuildStep = Need(capability: string, portFits: bool, optional: bool)

  /** A provider's build function: some require calls, then a registration whose claims may or may not be the declared
      ones, or a failure of its own. */
  datatype Build = Build(steps: seq<BuildStep>, outcome: BuildOutcome)

  datatype BuildOutcome = Registers(claimsMatch: bool) | Fails

  /** What is registered was completed once, and what is being built is on the stack once and not registered. */
  ghost predicate Constructing(builds: map<string, Build>, registrations: set<string>, building: seq<string>,
          completed: seq<string>) {
    && Distinct(building) && (forall c :: c in building ==> c in builds && c !in registrations)
    && registrations <= builds.Keys
    && Distinct(completed) && (forall c :: c in completed <==> c in registrations)
  }

  lemma {:induction false} StartBuild(builds: map<string, Build>, registrations: set<string>, building: seq<string>,
          completed: seq<string>, capability: string)
    requires Constructing(builds, registrations, building, completed)
    requires capability in builds && capability !in registrations && capability !in building
    ensures Constructing(builds, registrations, building + [capability], completed)
  {
  }

  lemma {:induction false} EndBuild(builds: map<string, Build>, registrations: set<string>, building: seq<string>,
          completed: seq<string>, capability: string)
    requires Constructing(builds, registrations, building + [capability], completed)
    ensures Constructing(builds, registrations, building, completed)
    ensures Constructing(builds, registrations + {capability}, building, completed + [capability])
  {
    var longer := building + [capability];
    assert longer[|building|] == capability;
    assert forall i :: 0 <= i < |building| ==> longer[i] == building[i];
    assert capability in longer;
  }

  class Host {
    const order: seq<string>
    const builds: map<string, Build>
    var registrations: set<string>
    var building: seq<string>
    var closed: bool
    /** Providers in the order in which their builds were completed and registered, and in which they were closed. */
    var completed: seq<string>
    var closings: seq<string>

    constructor (order: seq<string>, builds: map<string, Build>)
      requires Distinct(order) && forall c :: c in order <==> c in builds
      ensures this.order == order && this.builds == builds
      ensures Valid() && building == [] && registrations == {} && !closed && completed == [] && closings == []
    {
      this.order, this.builds := order, builds;
      registrations, building, closed, completed, closings := {}, [], false, [], [];
    }

    ghost predicate Valid()
      reads this
    {
      && Distinct(order) && (forall c :: c in order <==> c in builds)
      && Constructing(builds, registrations, building, completed)
    }

    /** The selected capabilities that are not being built: what nested construction runs out of. */
    ghost function Left(): set<string>
      reads this
    {
      builds.Keys - set c | c in building
    }

    /** What every call guarantees, successful or not: the stack is as it was, and nothing registered is lost or redone.
        */
    twostate predicate Restored()
      reads this
    {
      && Valid() && building == old(building) && closed == old(closed) && closings == old(closings)
      && old(registrations) <= registrations && old(completed) <= completed
    }

    /** `_registration`. */
    method Registration(capability: string) returns (r: Result<string, KernelError>)
      requires Valid()
      modifies this
      ensures Restored()
      ensures r.Ok? <==> capability in registrations
      ensures r.Ok? ==> r.value == capability
      ensures capability !in builds ==> r == Err(Unavailable(capability))
      ensures old(capability in building) ==> r == Err(Cycle(old(building) + [capability]))
      ensures old(capability in registrations) ==> r.Ok? && registrations == old(registrations)
      ensures WellBehaved(builds, order) && capability in builds && !closed ==>
        BeforeAll(order, capability, building) ==> r.Ok?
      decreases Left(), 1, 0
    {
      if capability in registrations {
        return Ok(capability);
      }
      if capability !in builds {
        return Err(Unavailable(capability));
      }
      if capability in building {
        BeforeIrreflexive(order, capability);
        return Err(Cycle(building + [capability]));
      }
      ghost var stack := building;
      ghost var left := Left();
      StartBuild(builds, registrations, building, completed, capability);
      building := building + [capability];
      assert capability in left && capability !in Left();
      assert building[|stack|] == capability;
      var failure := RunSteps(builds[capability].steps, 0, capability);
      assert building[..|building| - 1] == stack && building[|building| - 1] == capability;
      EndBuild(builds, registrations, stack, completed, capability);
      if failure.None? && builds[capability].outcome == Registers(true) {
        registrations := registrations + {capability};
        completed := completed + [capability];
        r := Ok(capability);
      } else if failure.Some? {
        r := Err(failure.value);
      } else {
        r := Err(Malformed(capability));
      }
      building := building[..|building| - 1];
    }

    /** The require calls of one build, from the given step on. */
    method RunSteps(steps: seq<BuildStep>, from: nat, owner: string) returns (failure: Option<KernelError>)
      requires Valid() && from <= |steps|
      requires owner in builds && steps == builds[owner].steps && owner in building && building[|building| - 1] == owner
      modifies this
      ensures Restored()
      ensures WellBehaved(builds, order) && !closed && Lowest(order, owner, building) ==> failure.None?
      decreases Left(), 3, |steps| - from
    {
      failure := None;
      if from < |steps| {
        var step := steps[from];
        var r := Require(step.capability, step.portFits);
        if r.Err? && !step.optional {
          assert WellBehaved(builds, order) ==> Declared(builds, order, owner, step);
          return Some(r.error);
        }
        failure := RunSteps(steps, from + 1, owner);
      }
    }

    /** `require`: guard, build if needed, then check the port. */
    method Require(capability: string, portFits: bool) returns (r: Result<string, KernelError>)
      requires Valid()
      modifies this
      ensures Restored()
      ensures closed ==> r == Err(HostClosed) && registrations == old(registrations)
      ensures r.Ok? ==> capability in registrations && portFits
      ensures WellBehaved(builds, order) && capability in builds && portFits && !closed ==>
        BeforeAll(order, capability, building) ==> r.Ok?
      decreases Left(), 2, 0
    {
      if closed {
        return Err(HostClosed);
      }
      r := Registration(capability);
      if r.Ok? && !portFits {
        return Err(Malformed(capability));
      }
    }

    /** `freeze`: every selected provider, in dependency order. */
    method Freeze() returns (failure: Option<KernelError>)
      requires Valid() && building == []
      modifies this
      ensures Restored()
      ensures closed ==> failure == Some(HostClosed)
      ensures failure.None? ==> registrations == builds.Keys
      ensures WellBehaved(builds, order) && !closed ==> failure.None?
    {
      if closed {
        return Some(HostClosed);
      }
      for i := 0 to |order|
        invariant Valid() && building == [] && closed == old(closed) && closings == old(closings)
        invariant old(registrations) <= registrations && old(completed) <= completed
        invariant forall k :: 0 <= k < i ==> order[k] in registrations
      {
        assert order[i] in order;
        var r := Registration(order[i]);
        if r.Err? {
          return Some(r.error);
        }
      }
      assert forall c :: c in builds ==> c in order;
      return None;
    }

    /** `close`: what was built is closed once, in reverse dependency order. */
    method Close()
      requires Valid()
      modifies this
      ensures Valid() && closed && registrations == old(registrations) && building == old(building)
      ensures old(closed) ==> closings == old(closings)
      ensures !old(closed) ==> closings == old(closings) + ReverseBuilt(order, registrations)
    {
      if closed {
        return;
      }
      var i := |order|;
      assert order[..i] == order;
      while i > 0
        invariant 0 <= i <= |order|
        invariant closings + ReverseBuilt(order[..i], registrations)
          == old(closings) + ReverseBuilt(order, registrations)
        invariant Valid() && !closed && registrations == old(registrations) && building == old(building)
      {
        i := i - 1;
        CloseNext(order, registrations, i, closings);
        if order[i] in registrations {
          closings := closings + [order[i]];
        }
      }
      closed := true;
    }
  }

  /** The registered capabilities, from the last of the order to the first. */
  function ReverseBuilt(order: seq<string>, registrations: set<string>): seq<string> {
    if order == [] then []
    else
      var last := order[|order| - 1];
      (if last in registrations then [last] else []) + ReverseBuilt(order[..|order| - 1], registrations)
  }

  lemma {:induction false} CloseNext(order: seq<string>, registrations: set<string>, i: nat, closings: seq<string>)
    requires i < |order|
    ensures closings + ReverseBuilt(order[..i + 1], registrations) ==
      (if order[i] in registrations then closings + [order[i]] else closings) + ReverseBuilt(order[..i], registrations)
  {
    assert order[..i + 1][..i] == order[..i];
  }

  /** Position in the order. */
  ghost predicate Before(order: seq<string>, a: string, b: string) {
    exists i, j :: 0 <= i < j < |order| && order[i] == a && order[j] == b
  }

  /** Earlier in the order than everything that is being built. */
  ghost predicate BeforeAll(order: seq<string>, a: string, building: seq<string>) {
    forall b :: b in building ==> Before(order, a, b)
  }

  /** Earlier than everything else that is being built. */
  ghost predicate Lowest(order: seq<string>, a: string, building: seq<string>) {
    forall b :: b in building ==> b == a || Before(order, a, b)
  }

  /** A require call for something earlier in the order, whose port is there. */
  ghost predicate Declared(builds: map<string, Build>, order: seq<string>, owner: string, step: BuildStep) {
    step.portFits && step.capability in builds && Before(order, step.capability, owner)
  }

  /** Every build asks only for what comes earlier in the order, and registers what it declared. */
  ghost predicate WellBehaved(builds: map<string, Build>, order: seq<string>) {
    && Distinct(order)
    && (forall c :: c in builds ==> builds[c].outcome == Registers(true))
    && (forall c, k :: c in builds && 0 <= k < |builds[c].steps| ==> Declared(builds, order, c, builds[c].steps[k]))
  }

  lemma {:induction false} BeforeIrreflexive(order: seq<string>, a: string)
    requires Distinct(order)
    ensures !Before(order, a, a)
  {
  }

  /** The order that a snapshot gives makes every host well behaved whose builds ask only for declared requirements. */
  lemma {:induction false} SnapshotHostsBehave(g: Graph, order: seq<string>, builds: map<string, Build>)
    requires DependencyOrder(g, order) && builds.Keys == g.Keys
    requires forall c :: c in builds ==> builds[c].outcome == Registers(true)
    requires forall c, k :: c in builds && 0 <= k < |builds[c].steps| ==>
      builds[c].steps[k].portFits && Edge(g, c, builds[c].steps[k].capability)
    ensures WellBehaved(builds, order)
  {
    forall c, k | c in builds && 0 <= k < |builds[c].steps| ensures Declared(builds, order, c, builds[c].steps[k]) {
      var needed := builds[c].steps[k].capability;
      EdgeGoesDown(g, order, c, needed);
      assert order[IndexOf(order, needed)] == needed && order[IndexOf(order, c)] == c;
    }
  }

  lemma {:induction false} ReverseBuiltMembers(order: seq<string>, registrations: set<string>)
    ensures forall c :: c in ReverseBuilt(order, registrations) <==> c in order && c in registrations
  {
    if order != [] {
      ReverseBuiltMembers(order[..|order| - 1], registrations);
      assert order == order[..|order| - 1] + [order[|order| - 1]];
    }
  }

  /** Whatever a provider may have used is closed after it. */
  lemma {:induction false} UsersCloseFirst(order: seq<string>, registrations: set<string>, user: string, used: string)
    requires Distinct(order) && Before(order, used, user)
    requires used in registrations && user in registrations
    ensures Before(ReverseBuilt(order, registrations), user, used)
  {
    var i, j :| 0 <= i < j < |order| && order[i] == used && order[j] == user;
    var init := order[..|order| - 1];
    var rest := ReverseBuilt(init, registrations);
    var all := ReverseBuilt(order, registrations);
    if j == |order| - 1 {
      ReverseBuiltMembers(init, registrations);
      assert init[i] == used;
      var k :| 0 <= k < |rest| && rest[k] == used;
      assert all[0] == user && all[k + 1] == used;
    } else {
      assert init[i] == used && init[j] == user;
      UsersCloseFirst(init, registrations, user, used);
      var k, l :| 0 <= k < l < |rest| && rest[k] == user && rest[l] == used;
      var shift := |all| - |rest|;
      assert all[k + shift] == user && all[l + shift] == used;
    }
  }
}
