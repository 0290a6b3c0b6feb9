/** generate_tasks: the batch of work items, numbered from 1, each with a
    command drawn from the catalog. */
module Tasks {
  import opened Records

  /** The catalog of CLI invocations the harness draws from. */
  const Commands: seq<string> := [
    "cray rrs zones list",
    "cray rrs zones describe cscs-rack-x3001",
    "cray rrs zones describe cscs-rack-x3000",
    "cray rrs zones describe cscs-rack-x3002",
    "cray rrs criticalservices list",
    "cray rrs criticalservices describe cray-hbtd",
    "cray rrs criticalservices describe cray-keycloak",
    "cray rrs criticalservices describe cray-spire-server",
    "cray rrs criticalservices describe coredns",
    "cray rrs criticalservices describe kube-multus-ds",
    "cray rrs criticalservices status list",
    "cray rrs criticalservices status describe cray-hmnfd",
    "cray rrs criticalservices status describe cray-spire-server",
    "cray rrs criticalservices status describe coredns",
    "cray rrs criticalservices status describe kube-multus-ds",
    "cray rrs criticalservices status describe cray-keycloak"
  ]

  /** The batch size the harness uses. */
  const TotalRequests: nat := 1000

  /** Task i carries request number i + 1. */
  ghost predicate Numbered(tasks: seq<Task>)
  {
    forall i :: 0 <= i < |tasks| ==> tasks[i].requestId == i + 1
  }

  /** Builds the batch. The random choice is an oracle: picks[i] is the catalog
      index drawn for task i. */
  method GenerateTasks(total: nat, catalog: seq<string>, picks: seq<nat>) returns (tasks: seq<Task>)
    requires |picks| == total
    requires forall i :: 0 <= i < total ==> picks[i] < |catalog|
    ensures |tasks| == total
    ensures Numbered(tasks)
    ensures forall i :: 0 <= i < total ==> tasks[i].command == catalog[picks[i]]
    ensures forall i :: 0 <= i < total ==> tasks[i].command in catalog
  {
    tasks := [];
    var i := 0;
    while i < total
      invariant 0 <= i <= total
      invariant |tasks| == i
      invariant forall k :: 0 <= k < i ==> tasks[k] == Task(k + 1, catalog[picks[k]])
    {
      var cmd := catalog[picks[i]];
      tasks := tasks + [Task(i + 1, cmd)];
      i := i + 1;
    }
  }

  /** The numbers of a numbered batch are exactly 1..N, each once. */
  lemma NumberedIdsCover(tasks: seq<Task>)
    requires Numbered(tasks)
    ensures OneToN(TaskIds(tasks))
  {
    forall id | 1 <= id <= |tasks|
      ensures id in TaskIds(tasks)
    {
      assert TaskIds(tasks)[id - 1] == id;
    }
  }
}
