/**
 Lifecycle steps: the key triple that identifies an execution position, and
 the two step kinds the allocate action produces.
 */
module Steps {

  /** Name of the wait step that checks that shards sit where the routing
      settings want them. */
  const AllocationRoutedName: string := "check-allocation"

  /** (phase, action, step name); equality is structural. */
  datatype StepKey = StepKey(phase: string, action: string, name: string)

  /** How a step runs: a synchronous rewrite of cluster state, or a
      synchronous wait on a predicate over it. */
  datatype Shape = ClusterStateAction | ClusterStateWait

  datatype Step =
    | UpdateSettings(key: StepKey, next: StepKey, settings: map<string, string>)
    | AllocationRouted(key: StepKey, next: StepKey)
  {
    function Shape(): Shape {
      match this
      case UpdateSettings(_, _, _) => ClusterStateAction
      case AllocationRouted(_, _) => ClusterStateWait
    }
  }

  /** `steps` run one after the other: each step's next key is the key of the
      step after it, and the last one hands over to `successor`. */
  ghost predicate ChainsTo(steps: seq<Step>, successor: StepKey) {
    && |steps| > 0
    && (forall i :: 0 <= i < |steps| - 1 ==> steps[i].next == steps[i + 1].key)
    && steps[|steps| - 1].next == successor
  }
}
