/**
 The allocate lifecycle action: moves an index's shards onto nodes whose
 attributes match up to three filters, by first writing the index's routing
 settings and then waiting until the shards have been routed accordingly.
 */
module AllocateActions {
  import opened Results
  import opened Steps
  import opened Routing

  /** The action's name, also its step-key action component. */
  const Name: string := "allocate"

  /** Preferred names of the action's three parameters. */
  const IncludeField: string := "include"
  const ExcludeField: string := "exclude"
  const RequireField: string := "require"

  /** Message of the construction failure. The words "require" and "must"
      are joined without a space, exactly as the action builds it. */
  const AllMapsEmptyMessage: string :=
    "At least one of " + IncludeField + ", " + ExcludeField + " or " + RequireField
    + "must contain attributes for action " + Name

  datatype Error = IllegalArgument(message: string)

  /** Node attribute name to the value a node must (or must not) carry. */
  type Attributes = map<string, string>

  /** A constructed action. Its maps are never null: a null argument is kept
      as the empty map, which is what the three getters return. */
  datatype AllocateAction = AllocateAction(includeAttrs: Attributes, excludeAttrs: Attributes, requireAttrs: Attributes) {

    /** At least one filter says something. */
    predicate Valid() {
      includeAttrs != map[] || excludeAttrs != map[] || requireAttrs != map[]
    }
  }

  predicate NullOrEmpty(m: Option<Attributes>) {
    m == None || m == Some(map[])
  }

  /** How the action stores a possibly-null parameter. */
  function OrEmpty(m: Option<Attributes>): Attributes {
    match m
    case None => map[]
    case Some(attrs) => attrs
  }

  /** The constructor: fails with an illegal-argument error exactly when every
      parameter is null or empty; otherwise keeps each parameter, null as empty. */
  function New(includeAttrs: Option<Attributes>, excludeAttrs: Option<Attributes>, requireAttrs: Option<Attributes>)
    : (r: Result<AllocateAction, Error>)
    ensures r.Failure? <==> NullOrEmpty(includeAttrs) && NullOrEmpty(excludeAttrs) && NullOrEmpty(requireAttrs)
    ensures r.Failure? ==> r.error == IllegalArgument(AllMapsEmptyMessage)
    ensures r.Success? ==> r.value.Valid()
    ensures r.Success? && includeAttrs.Some? ==> r.value.includeAttrs == includeAttrs.value
    ensures r.Success? && excludeAttrs.Some? ==> r.value.excludeAttrs == excludeAttrs.value
    ensures r.Success? && requireAttrs.Some? ==> r.value.requireAttrs == requireAttrs.value
    ensures r.Success? && includeAttrs.None? ==> r.value.includeAttrs == map[]
    ensures r.Success? && excludeAttrs.None? ==> r.value.excludeAttrs == map[]
    ensures r.Success? && requireAttrs.None? ==> r.value.requireAttrs == map[]
  {
    var a := AllocateAction(OrEmpty(includeAttrs), OrEmpty(excludeAttrs), OrEmpty(requireAttrs));
    if a.Valid() then Success(a) else Failure(IllegalArgument(AllMapsEmptyMessage))
  }

  /** The message spelled out. */
  lemma AllMapsEmptyMessageText()
    ensures AllMapsEmptyMessage
         == "At least one of include, exclude or requiremust contain attributes for action allocate"
  {
    FieldListText();
    assert "At least one of include, exclude or require" + "must contain attributes for action "
        == "At least one of include, exclude or requiremust contain attributes for action ";
    assert "At least one of include, exclude or requiremust contain attributes for action " + Name
        == "At least one of include, exclude or requiremust contain attributes for action allocate";
  }

  lemma FieldListText()
    ensures "At least one of " + IncludeField + ", " + ExcludeField + " or " + RequireField
         == "At least one of include, exclude or require"
  {
    assert "At least one of " + IncludeField == "At least one of include";
    assert "At least one of include" + ", " == "At least one of include, ";
    assert "At least one of include, " + ExcludeField == "At least one of include, exclude";
    assert "At least one of include, exclude" + " or " == "At least one of include, exclude or ";
  }

  /** Rebuilding an action from its getters gives the same action back, so
      copying a getter's map and passing it to the constructor is safe. */
  lemma NewFromGetters(a: AllocateAction)
    requires a.Valid()
    ensures New(Some(a.includeAttrs), Some(a.excludeAttrs), Some(a.requireAttrs)) == Success(a)
  {
  }

  /** Passing null and passing an empty map construct the same thing. */
  lemma NullIsEmpty(includeAttrs: Option<Attributes>, excludeAttrs: Option<Attributes>, requireAttrs: Option<Attributes>)
    ensures New(includeAttrs, excludeAttrs, requireAttrs)
         == New(Some(OrEmpty(includeAttrs)), Some(OrEmpty(excludeAttrs)), Some(OrEmpty(requireAttrs)))
  {
  }

  /** The settings the first step writes: each filter's attributes under the
      routing group setting of that filter. Each group reads back as exactly
      the filter it came from, and there is nothing else in the map. */
  function SettingsDelta(a: AllocateAction): (s: Attributes)
    ensures Unprefixed(IncludeGroupPrefix, s) == a.includeAttrs
    ensures Unprefixed(ExcludeGroupPrefix, s) == a.excludeAttrs
    ensures Unprefixed(RequireGroupPrefix, s) == a.requireAttrs
    ensures Grouped(s, IncludeGroupPrefix, ExcludeGroupPrefix, RequireGroupPrefix)
    ensures |s| == |a.includeAttrs| + |a.excludeAttrs| + |a.requireAttrs|
    ensures s != map[] <==> a.Valid()
  {
    GroupPrefixesIncomparable();
    GroupsReadBack(IncludeGroupPrefix, ExcludeGroupPrefix, RequireGroupPrefix,
                   a.includeAttrs, a.excludeAttrs, a.requireAttrs);
    MergedGrouped(IncludeGroupPrefix, ExcludeGroupPrefix, RequireGroupPrefix,
                  a.includeAttrs, a.excludeAttrs, a.requireAttrs);
    MergedSize(IncludeGroupPrefix, ExcludeGroupPrefix, RequireGroupPrefix,
               a.includeAttrs, a.excludeAttrs, a.requireAttrs);
    Prefixed(IncludeGroupPrefix, a.includeAttrs)
    + Prefixed(ExcludeGroupPrefix, a.excludeAttrs)
    + Prefixed(RequireGroupPrefix, a.requireAttrs)
  }

  /** The read-back equations and "every setting is in some group" pin the
      settings down: any settings map meeting them is the delta. */
  lemma SettingsDeltaUnique(a: AllocateAction, s: Attributes)
    requires Unprefixed(IncludeGroupPrefix, s) == a.includeAttrs
    requires Unprefixed(ExcludeGroupPrefix, s) == a.excludeAttrs
    requires Unprefixed(RequireGroupPrefix, s) == a.requireAttrs
    requires Grouped(s, IncludeGroupPrefix, ExcludeGroupPrefix, RequireGroupPrefix)
    ensures s == SettingsDelta(a)
  {
    GroupsDetermine(IncludeGroupPrefix, ExcludeGroupPrefix, RequireGroupPrefix, s, SettingsDelta(a));
  }

  lemma MergeEmpty(x: Attributes)
    ensures map[] + x == x
  {
  }

  /** Updating a merged map updates its right-hand part. */
  lemma MergeUpdate(s: Attributes, x: Attributes, name: string, v: string)
    ensures (s + x)[name := v] == s + x[name := v]
  {
  }

  /** Copies every entry of `m` into `s` under group `p`, one `put` per entry,
      in whatever order the entries come. */
  method PutGroup(s: Attributes, p: string, m: Attributes) returns (r: Attributes)
    ensures r == s + Prefixed(p, m)
  {
    r := s;
    var todo := m.Keys;
    ghost var done: Attributes := map[];
    while todo != {}
      invariant todo <= m.Keys
      invariant forall k :: k in done <==> k in m && k !in todo
      invariant forall k :: k in done ==> done[k] == m[k]
      invariant r == s + Prefixed(p, done)
      decreases todo
    {
      var k :| k in todo;
      MergeUpdate(s, Prefixed(p, done), p + k, m[k]);
      PrefixedUpdate(p, done, k, m[k]);
      r := r[p + k := m[k]];
      done := done[k := m[k]];
      todo := todo - {k};
    }
    assert done == m;
  }

  /** The expected settings as a settings builder assembles them: include,
      then exclude, then require, entry by entry. The result is the delta. */
  method ExpectedSettings(a: AllocateAction) returns (s: Attributes)
    ensures s == SettingsDelta(a)
  {
    var inc := Prefixed(IncludeGroupPrefix, a.includeAttrs);
    s := PutGroup(map[], IncludeGroupPrefix, a.includeAttrs);
    assert s == inc by {
      MergeEmpty(inc);
    }
    s := PutGroup(s, ExcludeGroupPrefix, a.excludeAttrs);
    s := PutGroup(s, RequireGroupPrefix, a.requireAttrs);
  }

  /** The action's steps. The cluster state (which may be null) is not read. */
  function ToSteps<C>(a: AllocateAction, clusterState: Option<C>, phase: string, nextStepKey: StepKey)
    : (steps: seq<Step>)
    ensures |steps| == 2
    ensures ChainsTo(steps, nextStepKey)
    ensures steps[0].UpdateSettings? && steps[0].Shape() == ClusterStateAction
    ensures steps[1].AllocationRouted? && steps[1].Shape() == ClusterStateWait
    ensures steps[0].key == StepKey(phase, Name, Name)
    ensures steps[1].key == StepKey(phase, Name, AllocationRoutedName)
    ensures steps[0].key != steps[1].key
    ensures steps[0].settings == SettingsDelta(a)
  {
    var checkKey := StepKey(phase, Name, AllocationRoutedName);
    [ UpdateSettings(StepKey(phase, Name, Name), checkKey, SettingsDelta(a)),
      AllocationRouted(checkKey, nextStepKey) ]
  }

  /** Only the action, the phase and the successor decide the steps. */
  lemma ToStepsIgnoresClusterState<C>(a: AllocateAction, s1: Option<C>, s2: Option<C>,
                                      phase: string, nextStepKey: StepKey)
    ensures ToSteps(a, s1, phase, nextStepKey) == ToSteps(a, s2, phase, nextStepKey)
  {
  }

  /** What the steps of a freshly constructed action write: every parameter,
      null read as empty, under its own routing group, and at least one
      setting in all. */
  lemma ConstructedActionSteps<C>(includeAttrs: Option<Attributes>, excludeAttrs: Option<Attributes>,
                                  requireAttrs: Option<Attributes>, clusterState: Option<C>,
                                  phase: string, nextStepKey: StepKey)
    requires !(NullOrEmpty(includeAttrs) && NullOrEmpty(excludeAttrs) && NullOrEmpty(requireAttrs))
    ensures New(includeAttrs, excludeAttrs, requireAttrs).Success?
    ensures var settings := ToSteps(New(includeAttrs, excludeAttrs, requireAttrs).value,
                                    clusterState, phase, nextStepKey)[0].settings;
      && Unprefixed(IncludeGroupPrefix, settings) == OrEmpty(includeAttrs)
      && Unprefixed(ExcludeGroupPrefix, settings) == OrEmpty(excludeAttrs)
      && Unprefixed(RequireGroupPrefix, settings) == OrEmpty(requireAttrs)
      && settings != map[]
  {
  }
}
