/** Finding cycles tells which profiles can be integrated. */
module AcyclicProfiles {
  import opened Graphs
  import opened Propagation
  import FindCycles

  ghost predicate NoneHasCycle(profile: FindCycles.Profile)
    reads profile, profile.functions.Values
  {
    forall f :: f in profile.functions ==> profile.functions[f].cycle == null
  }

  /** The profile makes these calls. */
  ghost predicate Makes(fl: Flow, profile: FindCycles.Profile)
    reads profile, profile.functions.Values
  {
    WellFormed(fl) && profile.Valid() && profile.Calls() == CallGraph(fl)
  }

  lemma CallsClosed(fl: Flow, profile: FindCycles.Profile)
    requires Makes(fl, profile)
    ensures Closed(profile.Calls()) && profile.functions.Keys == fl.calls.Keys
  {
    assert profile.functions.Keys == profile.Calls().Keys;
    assert CallGraph(fl).Keys == fl.calls.Keys;
  }

  lemma NoneExactly(fl: Flow, profile: FindCycles.Profile)
    requires Makes(fl, profile)
    requires forall f :: f in profile.functions ==>
      (profile.functions[f].cycle != null <==> FindCycles.Cyclic(profile.Calls(), f))
    ensures NoneHasCycle(profile) <==> Acyclic(fl)
  {
    AcyclicExactly(fl);
    hide Acyclic, FindCycles.Cyclic;
    assert forall f :: f in fl.calls <==> f in profile.functions by {
      CallsClosed(fl, profile);
      assert forall f :: f in fl.calls <==> f in fl.calls.Keys;
      assert forall f :: f in profile.functions <==> f in profile.functions.Keys;
    }
  }

  /** Without cycles but self-calls are the profiles in which finding cycles finds none and
      gives no function one. */
  method FindsNone(fl: Flow, profile: FindCycles.Profile) returns (none: bool)
    requires Makes(fl, profile) && NoneHasCycle(profile)
    modifies profile`cycles, profile.functions.Values`cycle
    ensures Makes(fl, profile)
    ensures none <==> Acyclic(fl)
    ensures none <==> NoneHasCycle(profile)
  {
    CallsClosed(fl, profile);
    hide Acyclic, FindCycles.Cyclic, Mutual, Closed, WellFormed, CallGraph;
    profile.FindCycles();
    NoneExactly(fl, profile);
    none := profile.cycles == [];
    if profile.cycles != [] {
      assert profile.cycles[0] in profile.cycles;
    }
  }
}
