/** What it takes for a node to be enabled: the criteria of a pool, nodes and pods as the cluster has them,
    and the enabled set recomputed from scratch. */
module NodeMatches {
  import opened Options

  type Labels = map<string, string>

  const READY := "Ready"
  const TRUE := "True"
  const RUNNING := "Running"

  datatype Condition = Condition(kind: string, status: string)

  datatype Taint = Taint(key: string, value: string, effect: string)

  datatype Node = Node(
    name: string,
    providerID: string,
    deleting: bool,
    labels: Labels,
    taints: seq<Taint>,
    conditions: seq<Condition>,
    reservedIP: string)       // the annotation

  datatype Pod = Pod(
    namespace: string,
    name: string,
    nodeName: string,
    deleting: bool,
    labels: Labels,
    phase: string,
    conditions: seq<Condition>)

  /** Parsed criteria. Selectors and tolerations are any predicates. */
  datatype Criteria = Criteria(
    nodeSelector: Option<Labels -> bool>,
    tolerations: seq<Taint -> bool>,
    podNamespace: string,
    podSelector: Option<Labels -> bool>)

  /** The pool asks for pods on its nodes. */
  predicate Constrained(c: Criteria) {
    c.podNamespace != "" || c.podSelector.Some?
  }

  /** The last condition of that kind, if any, is true. */
  predicate IsReady(conditions: seq<Condition>) {
    exists i ::
      && 0 <= i < |conditions| && conditions[i].kind == READY && conditions[i].status == TRUE
      && forall j :: i < j < |conditions| ==> conditions[j].kind != READY
  }

  predicate Tolerated(tolerations: seq<Taint -> bool>, taint: Taint) {
    exists i :: 0 <= i < |tolerations| && tolerations[i](taint)
  }

  /** Ready, labels match, and every taint is tolerated. */
  predicate NodeMatch(c: Criteria, node: Node) {
    && IsReady(node.conditions)
    && (c.nodeSelector.Some? ==> c.nodeSelector.value(node.labels))
    && forall i :: 0 <= i < |node.taints| ==> Tolerated(c.tolerations, node.taints[i])
  }

  predicate Live(pod: Pod) {
    pod.phase == RUNNING && IsReady(pod.conditions)
  }

  predicate Selected(c: Criteria, pod: Pod) {
    && (c.podNamespace != "" ==> pod.namespace == c.podNamespace)
    && (c.podSelector.Some? ==> c.podSelector.value(pod.labels))
  }

  /** The pod qualifies its node. */
  predicate Qualifies(c: Criteria, pod: Pod) {
    !pod.deleting && Selected(c, pod) && Live(pod)
  }

  function Key(pod: Pod): string { pod.namespace + "/" + pod.name }

  /** The keys of the pods that qualify a node. */
  function QualifyingPods(c: Criteria, pods: map<string, Pod>, nodeName: string): set<string> {
    set key | key in pods && pods[key].nodeName == nodeName && Qualifies(c, pods[key])
  }

  predicate ShouldEnable(c: Criteria, node: Node, pods: map<string, Pod>) {
    NodeMatch(c, node) && (Constrained(c) ==> QualifyingPods(c, pods, node.name) != {})
  }

  // ----- the cluster, as told by events -----

  /** The latest version of every node and pod. */
  datatype Cluster = Cluster(nodes: map<string, Node>, pods: map<string, Pod>)

  datatype Event = NodeUpdate(node: Node) | NodeDelete(node: Node) | PodUpdate(pod: Pod) | PodDelete(pod: Pod)

  function After(cluster: Cluster, e: Event): Cluster {
    match e
    case NodeUpdate(node) => cluster.(nodes := cluster.nodes[node.name := node])
    case NodeDelete(node) => cluster.(nodes := cluster.nodes - {node.name})
    case PodUpdate(pod) => cluster.(pods := cluster.pods[Key(pod) := pod])
    case PodDelete(pod) => cluster.(pods := cluster.pods - {Key(pod)})
  }

  function AfterAll(cluster: Cluster, events: seq<Event>): Cluster {
    if events == [] then cluster else After(AfterAll(cluster, events[..|events| - 1]), events[|events| - 1])
  }

  /** Nodes on their way out, and nodes the cloud has not given an id, do not take part. */
  predicate Present(cluster: Cluster, name: string) {
    name in cluster.nodes && !cluster.nodes[name].deleting && cluster.nodes[name].providerID != ""
  }

  /** The enabled set, from scratch. */
  function Wanted(c: Criteria, cluster: Cluster): set<string> {
    set name | name in cluster.nodes && Present(cluster, name) && ShouldEnable(c, cluster.nodes[name], cluster.pods)
  }

  /** What Kubernetes and the informers promise: objects have names, a node that has a provider id goes on
      having one, a pod keeps its labels and, once scheduled, its node; pods are watched only if the pool
      asks for some. */
  predicate Possible(c: Criteria, cluster: Cluster, e: Event) {
    match e
    case NodeUpdate(node) => node.name != "" && (Present(cluster, node.name) && !node.deleting ==> node.providerID != "")
    case NodeDelete(node) => true
    case PodUpdate(pod) => Constrained(c) && (Key(pod) in cluster.pods ==> SamePod(cluster.pods[Key(pod)], pod))
    case PodDelete(pod) => Constrained(c) && (Key(pod) in cluster.pods ==> cluster.pods[Key(pod)].nodeName in {"", pod.nodeName})
  }

  predicate SamePod(before: Pod, after: Pod) {
    before.labels == after.labels && before.namespace == after.namespace && before.nodeName in {"", after.nodeName}
  }

  predicate AllPossible(c: Criteria, cluster: Cluster, events: seq<Event>) {
    forall i :: 0 <= i < |events| ==> Possible(c, AfterAll(cluster, events[..i]), events[i])
  }

  // ----- provider ids -----

  /** The enabled set, from scratch, by provider id. */
  function WantedIDs(c: Criteria, cluster: Cluster): set<string> {
    set name | name in cluster.nodes && name in Wanted(c, cluster) :: cluster.nodes[name].providerID
  }

  /** No two nodes that take part are the same machine. */
  ghost predicate DistinctIDs(cluster: Cluster) {
    forall a, b :: Present(cluster, a) && Present(cluster, b) && a != b ==> cluster.nodes[a].providerID != cluster.nodes[b].providerID
  }

  ghost predicate OwnID(cluster: Cluster, id: string, name: string) {
    forall other :: Present(cluster, other) && other != name ==> cluster.nodes[other].providerID != id
  }

  /** The event's node is not another node's machine. */
  ghost predicate KeepsApart(cluster: Cluster, e: Event) {
    e.NodeUpdate? || e.NodeDelete? ==> OwnID(cluster, e.node.providerID, e.node.name)
  }

  /** The event brings another machine under the name of a node that is enabled. */
  predicate Replaces(c: Criteria, cluster: Cluster, e: Event) {
    && (e.NodeUpdate? || e.NodeDelete?)
    && e.node.name in Wanted(c, cluster) && cluster.nodes[e.node.name].providerID != e.node.providerID
  }

  ghost predicate NoneReplaced(c: Criteria, cluster: Cluster, events: seq<Event>) {
    forall i :: 0 <= i < |events| ==>
      KeepsApart(AfterAll(cluster, events[..i]), events[i]) && !Replaces(c, AfterAll(cluster, events[..i]), events[i])
  }
}
