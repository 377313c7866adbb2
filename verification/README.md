# Allocate lifecycle action

A Dafny model of the `allocate` action of Elasticsearch's index lifecycle
management. The action constrains where an index's shards may live through
three node-attribute filters, `include`, `exclude` and `require`. Each filter
maps a node attribute name to a value.

- **Construction.** The three filters may each be null, empty or non-empty.
  At least one of them must be non-empty. Otherwise construction fails with
  an illegal-argument error whose message is
  `At least one of include, exclude or requiremust contain attributes for action allocate`.
  The missing space before "must" is how the message is built. A null filter
  is kept as an empty map, so the getters never return null.
- **Steps.** `toSteps(clusterState, phase, nextStepKey)` returns two steps
  and never reads the cluster state, which may be null.
  1. An update-settings step keyed `(phase, "allocate", "allocate")`. Its
     next key is the second step's key.
  2. An allocation-routed wait step keyed `(phase, "allocate", "check-allocation")`.
     Its next key is the caller's `nextStepKey`.
- **Settings.** The first step writes every filter entry `attr -> value` as
  the index setting `index.routing.allocation.<filter>.attr -> value`, and
  nothing else.

Modules:

- `Results` (results.dfy): `Option` stands for a nullable reference and
  `Result` for a constructor that may throw.
- `Steps` (steps.dfy): `StepKey`, the two step kinds with their execution
  shape, and `ChainsTo`, which says that a list of steps hands over from one
  step to the next and finally to a given successor.
- `Routing` (routing.dfy): the three routing group prefixes. `Prefixed` files
  a filter under a group. `Unprefixed` reads a group back out of a settings
  map. The lemmas show that the groups are disjoint and that a settings map
  made of groups is fully described by what each group reads back.
- `AllocateActions` (allocate_action.dfy): the action, its constructor
  `New`, the settings delta, `ToSteps`, and `ExpectedSettings`. That method
  builds the settings entry by entry, in any order, the way a settings
  builder would.

The step name `check-allocation` is `AllocationRoutedStep.NAME`, and the
three prefixes are the keys of `IndexMetaData`'s routing group settings.
Neither class is modelled; the model uses the values Elasticsearch defines for
them.

## Model

| member | source | states |
|---|---|---|
| AllocateActions.New | x-pack/plugin/core/src/test/java/org/elasticsearch/xpack/core/indexlifecycle/AllocateActionTests.java:29-52 | Construction fails exactly when all three filters are null or empty, and then with the illegal-argument message. On success the action is valid, each non-null filter is kept as given, and each null filter reads back as an empty map. |
| AllocateActions.AllMapsEmptyMessageText | x-pack/plugin/core/src/test/java/org/elasticsearch/xpack/core/indexlifecycle/AllocateActionTests.java:89-91 | The failure message, built from the three field names and the action name, is the exact text with no space before "must". |
| AllocateActions.NullIsEmpty | x-pack/plugin/core/src/test/java/org/elasticsearch/xpack/core/indexlifecycle/AllocateActionTests.java:84-88 | Passing null for a filter and passing an empty map give the same outcome, whether that is a failure or an action. |
| AllocateActions.NewFromGetters | x-pack/plugin/core/src/test/java/org/elasticsearch/xpack/core/indexlifecycle/AllocateActionTests.java:61-80 | Passing a valid action's getter maps back to the constructor rebuilds the same action. |
| AllocateActions.SettingsDelta | x-pack/plugin/core/src/test/java/org/elasticsearch/xpack/core/indexlifecycle/AllocateActionTests.java:116-123 | Each routing group of the settings reads back as exactly its filter, and every setting belongs to one of the three groups. The size is the sum of the filter sizes. The settings are non-empty exactly when the action is valid. |
| AllocateActions.SettingsDeltaUnique | x-pack/plugin/core/src/test/java/org/elasticsearch/xpack/core/indexlifecycle/AllocateActionTests.java:116-123 | Any settings map whose three groups read back as the filters and which has no setting outside those groups is the delta. Together with SettingsDelta this is an if-and-only-if. |
| AllocateActions.PutGroup | x-pack/plugin/core/src/test/java/org/elasticsearch/xpack/core/indexlifecycle/AllocateActionTests.java:117-118 | Putting each filter entry under the group prefix, one at a time and in any order, adds exactly the prefixed filter to the settings. |
| AllocateActions.ExpectedSettings | x-pack/plugin/core/src/test/java/org/elasticsearch/xpack/core/indexlifecycle/AllocateActionTests.java:116-123 | Building the settings from include, then exclude, then require gives exactly the delta that the first step carries. |
| AllocateActions.ToSteps | x-pack/plugin/core/src/test/java/org/elasticsearch/xpack/core/indexlifecycle/AllocateActionTests.java:103-127 | There are exactly two steps, and they chain to the caller's successor key. The first is an update-settings step keyed (phase, allocate, allocate) that carries the delta. The second is an allocation-routed wait step keyed (phase, allocate, check-allocation). The two keys differ. |
| AllocateActions.ToStepsIgnoresClusterState | x-pack/plugin/core/src/test/java/org/elasticsearch/xpack/core/indexlifecycle/AllocateActionTests.java:108 | The steps do not depend on the cluster state argument, which may be null. |
| AllocateActions.ConstructedActionSteps | x-pack/plugin/core/src/test/java/org/elasticsearch/xpack/core/indexlifecycle/AllocateActionTests.java:103-123 | For any mix of filters with at least one non-empty, construction succeeds. The first step's settings then read back, group by group, as the given filters (null as empty) and are non-empty. |
| Routing.GroupPrefixesIncomparable | x-pack/plugin/core/src/test/java/org/elasticsearch/xpack/core/indexlifecycle/AllocateActionTests.java:118-122 | No routing group prefix is a prefix of another. |
| Routing.Prefixed | x-pack/plugin/core/src/test/java/org/elasticsearch/xpack/core/indexlifecycle/AllocateActionTests.java:118 | Every attribute k of the filter becomes the setting prefix+k, with the same value. |
| Routing.PrefixedName | x-pack/plugin/core/src/test/java/org/elasticsearch/xpack/core/indexlifecycle/AllocateActionTests.java:118 | Conversely, every setting of a prefixed filter starts with the prefix, and the rest of its name is an attribute of the filter. |
| Routing.Unprefixed | x-pack/plugin/core/src/test/java/org/elasticsearch/xpack/core/indexlifecycle/AllocateActionTests.java:117-122 | Reading a group back: k is in the result exactly when prefix+k is a setting, and it carries that setting's value. It holds for any settings map, including settings outside every group. |
| Routing.UnprefixPrefixed | x-pack/plugin/core/src/test/java/org/elasticsearch/xpack/core/indexlifecycle/AllocateActionTests.java:117-118 | Reading back a group gives exactly the filter that was filed under it. |
| Routing.PrefixedSize | x-pack/plugin/core/src/test/java/org/elasticsearch/xpack/core/indexlifecycle/AllocateActionTests.java:117-118 | Filing a filter under a prefix keeps its number of entries, because prefixing is injective. |
| Routing.MergedSize | x-pack/plugin/core/src/test/java/org/elasticsearch/xpack/core/indexlifecycle/AllocateActionTests.java:116-123 | Three groups under incomparable prefixes merge without collisions, so the merged map has one entry per filter entry. |
| Routing.GroupsReadBack | x-pack/plugin/core/src/test/java/org/elasticsearch/xpack/core/indexlifecycle/AllocateActionTests.java:116-123 | After merging three incomparable groups, each group reads back as the filter it was built from. |
| Routing.GroupsDetermine | x-pack/plugin/core/src/test/java/org/elasticsearch/xpack/core/indexlifecycle/AllocateActionTests.java:123 | Two settings maps that lie inside the three groups and whose groups read back alike are equal. |

## Left out

- XContent parsing and stream serialisation of the action (`parse` and the
  stream constructor). They are library calls whose code is not part of this
  model.
- Random instance generation and one-field mutation for equality testing.
  These are test machinery. The equality checks they feed come from a base
  test class that is not part of this model. `NewFromGetters` covers the
  copy-and-reconstruct part.
- The shard-placement predicate that the allocation-routed step evaluates.
  Its code is not part of this model, so the step is modelled by its key and
  next key only.
- The step executor, retries, error state and per-index locking. Their code
  is not part of this model, and the locking is about concurrency.
- The cluster state is a type parameter that is never inspected, because the
  action never reads it.
