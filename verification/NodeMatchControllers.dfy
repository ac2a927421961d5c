/** The node match Controller: it hears about one node or pod at a time and keeps the action's enabled set
    equal to the one recomputed from scratch. Modelled once it is primed, with the pod index up to date
    whenever an event is handled. */
module NodeMatchControllers {
  import opened Options
  import opened NodeMatches

  /** The `node` struct. */
  datatype Tracked = Tracked(node: Node, isNodeMatch: bool, matchingPods: map<string, Pod>, enabled: bool)

  /** The record agrees with the criteria and the pod index. */
  ghost predicate Current(c: Criteria, t: Tracked, pods: map<string, Pod>) {
    && t.node.name != ""
    && t.isNodeMatch == NodeMatch(c, t.node)
    && (t.isNodeMatch && Constrained(c) ==> t.matchingPods.Keys == QualifyingPods(c, pods, t.node.name))
  }

  ghost predicate KeysMatch(pods: map<string, Pod>) {
    forall key :: key in pods ==> Key(pods[key]) == key
  }

  /** Records agree with criteria and index, and the action has enabled the nodes that should be. */
  ghost predicate InStep(c: Criteria, nodes: map<string, Tracked>, pods: map<string, Pod>, enabled: set<string>) {
    && KeysMatch(pods)
    && (forall name :: name in nodes ==> nodes[name].node.name == name && Current(c, nodes[name], pods))
    && (forall name :: name in enabled <==> name in nodes && ShouldEnable(c, nodes[name].node, pods))
  }

  /** The nodes known, as last seen. */
  function NodesOf(nodes: map<string, Tracked>): map<string, Node> {
    map name | name in nodes :: nodes[name].node
  }

  ghost function With(enabled: set<string>, name: string, on: bool): set<string> {
    if on then enabled + {name} else enabled - {name}
  }

  /** Bringing one node's record and enablement up to date. */
  lemma OneNodeInStep(c: Criteria, nodes: map<string, Tracked>, pods: map<string, Pod>, enabled: set<string>, t: Tracked)
    requires InStep(c, nodes, pods, enabled) && Current(c, t, pods)
    ensures InStep(c, nodes[t.node.name := t], pods, With(enabled, t.node.name, ShouldEnable(c, t.node, pods)))
    ensures NodesOf(nodes[t.node.name := t]) == NodesOf(nodes)[t.node.name := t.node]
  {
  }

  /** matchingPods after updatePod on a matching node. */
  function PodsAfter(c: Criteria, tracked: map<string, Pod>, pod: Pod): map<string, Pod> {
    if pod.deleting then tracked - {Key(pod)}
    else if !Selected(c, pod) || Live(pod) == (Key(pod) in tracked) then tracked
    else if Live(pod) then tracked[Key(pod) := pod]
    else tracked - {Key(pod)}
  }

  /** Whether the action has the node enabled, after updatePod on a matching node. */
  function ActionAfter(c: Criteria, tracked: map<string, Pod>, pod: Pod, was: bool): bool {
    var after := PodsAfter(c, tracked, pod);
    if pod.deleting then was && after != map[]
    else if after.Keys == tracked.Keys then was
    else if Live(pod) then was || |after| == 1
    else was && after != map[]
  }

  /** A pod that qualifies comes, any other goes. */
  lemma PodsAfterKeys(c: Criteria, tracked: map<string, Pod>, pod: Pod)
    requires Selected(c, pod) || Key(pod) !in tracked
    ensures PodsAfter(c, tracked, pod).Keys == if Qualifies(c, pod) then tracked.Keys + {Key(pod)} else tracked.Keys - {Key(pod)}
  {
  }

  /** The action is told enough: a node with tracked pods is enabled, and one that was not is enabled
      only with a tracked pod. */
  lemma ActionFollows(c: Criteria, tracked: map<string, Pod>, pod: Pod, was: bool)
    requires tracked != map[] ==> was
    ensures PodsAfter(c, tracked, pod) != map[] ==> ActionAfter(c, tracked, pod, was)
    ensures ActionAfter(c, tracked, pod, was) ==> PodsAfter(c, tracked, pod) != map[] || (was && tracked == map[])
  {
  }

  lemma OtherNodesKeep(c: Criteria, pods: map<string, Pod>, pod: Pod, name: string)
    requires KeysMatch(pods) && name != "" && name != pod.nodeName
    requires Key(pod) in pods ==> pods[Key(pod)].nodeName in {"", pod.nodeName}
    ensures QualifyingPods(c, pods[Key(pod) := pod], name) == QualifyingPods(c, pods, name)
    ensures QualifyingPods(c, pods - {Key(pod)}, name) == QualifyingPods(c, pods, name)
  {
  }

  lemma ItsNodeGets(c: Criteria, pods: map<string, Pod>, pod: Pod)
    ensures QualifyingPods(c, pods[Key(pod) := pod], pod.nodeName) ==
      if Qualifies(c, pod) then QualifyingPods(c, pods, pod.nodeName) + {Key(pod)} else QualifyingPods(c, pods, pod.nodeName) - {Key(pod)}
    ensures QualifyingPods(c, pods - {Key(pod)}, pod.nodeName) == QualifyingPods(c, pods, pod.nodeName) - {Key(pod)}
  {
  }

  /** The nodes known after an update: nodes without a provider id are ignored until they have one. */
  function KnownAfter(known: map<string, Node>, node: Node): map<string, Node> {
    if node.deleting then known - {node.name}
    else if node.name !in known && node.providerID == "" then known
    else known[node.name := node]
  }

  // ----- what the action is told -----

  /** The call that a piece of the source makes, if any. */
  datatype ActionCall = NoCall | EnableCall | DisableCall

  predicate Outcome(call: ActionCall, was: bool) {
    call.EnableCall? || (call.NoCall? && was)
  }

  /** Calls for one node, with one provider id: nothing else changes, and if the id was in the one set just
      when the node was in the other, it is so again. */
  predicate Touches(enabled: set<string>, enabled': set<string>, ids: set<string>, ids': set<string>, name: string, id: string) {
    && enabled' - {name} == enabled - {name} && ids' - {id} == ids - {id}
    && ((id in ids <==> name in enabled) ==> (id in ids' <==> name in enabled'))
  }

  lemma TouchesTrans(e0: set<string>, e1: set<string>, e2: set<string>, i0: set<string>, i1: set<string>, i2: set<string>,
                     name: string, id: string)
    requires Touches(e0, e1, i0, i1, name, id) && Touches(e1, e2, i1, i2, name, id)
    ensures Touches(e0, e2, i0, i2, name, id)
  {
  }

  function IdOf(nodes: map<string, Tracked>, name: string): string {
    if name in nodes then nodes[name].node.providerID else ""
  }

  class Controller {
    const criteria: Criteria
    var nodes: map<string, Tracked>     // nodeNameToNode
    var podIndex: map<string, Pod>      // what podIndexer holds
    var enabled: set<string>            // the nodes the action was told to enable, and not to disable since
    var enabledIDs: set<string>         // the same by provider id, which is all the action goes by

    ghost function Known(): map<string, Node>
      reads this
    {
      NodesOf(nodes)
    }

    ghost predicate Valid()
      reads this
    {
      InStep(criteria, nodes, podIndex, enabled)
    }

    constructor (criteria: Criteria)
      ensures Valid() && this.criteria == criteria && nodes == map[] && podIndex == map[]
      ensures enabled == {} && enabledIDs == {}
    {
      this.criteria := criteria;
      nodes, podIndex, enabled, enabledIDs := map[], map[], {}, {};
    }

    method Enable(name: string, id: string)
      modifies `enabled, `enabledIDs
      ensures enabled == old(enabled) + {name} && enabledIDs == old(enabledIDs) + {id}
    {
      enabled, enabledIDs := enabled + {name}, enabledIDs + {id};
    }

    method Disable(name: string, id: string)
      modifies `enabled, `enabledIDs
      ensures enabled == old(enabled) - {name} && enabledIDs == old(enabledIDs) - {id}
    {
      enabled, enabledIDs := enabled - {name}, enabledIDs - {id};
    }

    /** The loops over conditions and taints. */
    method IsNodeMatch(node: Node) returns (match': bool)
      ensures match' == NodeMatch(criteria, node)
    {
      var ready := LastReady(node.conditions);
      if !ready {
        return false;
      }
      if criteria.nodeSelector.Some? && !criteria.nodeSelector.value(node.labels) {
        return false;
      }
      for i := 0 to |node.taints|
        invariant forall k :: 0 <= k < i ==> Tolerated(criteria.tolerations, node.taints[k])
      {
        var tolerated := false;
        for j := 0 to |criteria.tolerations|
          invariant !tolerated ==> forall k :: 0 <= k < j ==> !criteria.tolerations[k](node.taints[i])
          invariant tolerated ==> Tolerated(criteria.tolerations, node.taints[i])
        {
          if criteria.tolerations[j](node.taints[i]) {
            tolerated := true;
            break;
          }
        }
        if !tolerated {
          assert !Tolerated(criteria.tolerations, node.taints[i]);
          return false;
        }
      }
      return true;
    }

    method DeleteNode(node: Node)
      requires Valid()
      modifies `nodes, `enabled, `enabledIDs
      ensures Valid() && Known() == old(Known()) - {node.name}
      ensures Touches(old(enabled), enabled, old(enabledIDs), enabledIDs, node.name, node.providerID)
    {
      Disable(node.name, node.providerID);
      nodes := nodes - {node.name};
    }

    /** The pods of the index on a node, in whatever order. */
    method GetNodePods(nodeName: string) returns (pods: seq<Pod>)
      requires KeysMatch(podIndex)
      ensures forall i, j :: 0 <= i < j < |pods| ==> Key(pods[i]) != Key(pods[j])
      ensures forall pod :: pod in pods <==> Key(pod) in podIndex && podIndex[Key(pod)] == pod && pod.nodeName == nodeName
    {
      pods := [];
      var left := podIndex.Keys;
      while left != {}
        invariant left <= podIndex.Keys
        invariant forall i, j :: 0 <= i < j < |pods| ==> Key(pods[i]) != Key(pods[j])
        invariant forall pod :: pod in pods <==>
          Key(pod) in podIndex && Key(pod) !in left && podIndex[Key(pod)] == pod && pod.nodeName == nodeName
        decreases |left|
      {
        var key :| key in left;
        if podIndex[key].nodeName == nodeName {
          pods := pods + [podIndex[key]];
        }
        left := left - {key};
      }
    }

    method DeletePod(pod: Pod)
      modifies `nodes, `enabled, `enabledIDs
      ensures pod.nodeName == "" || pod.nodeName !in old(nodes) ==> nodes == old(nodes) && enabled == old(enabled)
      ensures pod.nodeName != "" && pod.nodeName in old(nodes) ==>
        var pods := old(nodes)[pod.nodeName].matchingPods - {Key(pod)};
        && nodes == old(nodes)[pod.nodeName := old(nodes)[pod.nodeName].(matchingPods := pods)]
        && enabled == old(enabled) - if pods == map[] then {pod.nodeName} else {}
      ensures Touches(old(enabled), enabled, old(enabledIDs), enabledIDs, pod.nodeName, IdOf(old(nodes), pod.nodeName))
    {
      if pod.nodeName == "" || pod.nodeName !in nodes {
        return;
      }
      var t := nodes[pod.nodeName];
      var pods := t.matchingPods - {Key(pod)};
      nodes := nodes[pod.nodeName := t.(matchingPods := pods)];
      if |pods| == 0 {
        Disable(pod.nodeName, t.node.providerID);
      }
    }

    method UpdatePod(pod: Pod)
      modifies `nodes, `enabled, `enabledIDs
      ensures Ignores(old(nodes), pod) ==> nodes == old(nodes) && enabled == old(enabled)
      ensures !Ignores(old(nodes), pod) ==>
        var name, t := pod.nodeName, old(nodes)[pod.nodeName];
        && name in nodes
        && nodes == old(nodes)[name := t.(matchingPods := PodsAfter(criteria, t.matchingPods, pod), enabled := nodes[name].enabled)]
        && enabled == With(old(enabled), name, ActionAfter(criteria, t.matchingPods, pod, name in old(enabled)))
      ensures Touches(old(enabled), enabled, old(enabledIDs), enabledIDs, pod.nodeName, IdOf(old(nodes), pod.nodeName))
    {
      if pod.nodeName == "" {
        return;
      }
      if pod.deleting {
        DeletePod(pod);
        return;
      }
      if pod.nodeName !in nodes || !nodes[pod.nodeName].isNodeMatch {
        return;
      }
      var t, call := TrackPod(criteria, nodes[pod.nodeName], pod, pod.nodeName in enabled);
      nodes := nodes[pod.nodeName := t];
      match call
      case NoCall =>
      case EnableCall => Enable(pod.nodeName, t.node.providerID);
      case DisableCall => Disable(pod.nodeName, t.node.providerID);
    }

    /** updatePod for a pod on a known matching node. */
    method TrackNext(pod: Pod)
      requires pod.nodeName != "" && pod.nodeName in nodes && nodes[pod.nodeName].isNodeMatch
      modifies `nodes, `enabled, `enabledIDs
      ensures var name, t := pod.nodeName, old(nodes)[pod.nodeName];
        && name in nodes && nodes == old(nodes)[name := nodes[name]]
        && nodes[name].node == t.node && nodes[name].isNodeMatch
        && nodes[name].matchingPods == PodsAfter(criteria, t.matchingPods, pod)
        && (name in enabled <==> ActionAfter(criteria, t.matchingPods, pod, name in old(enabled)))
        && enabled == With(old(enabled), name, name in enabled)
        && Touches(old(enabled), enabled, old(enabledIDs), enabledIDs, name, t.node.providerID)
    {
      UpdatePod(pod);
    }

    /** The loop of updateNode over the pods of a node whose tracked pods were cleared. */
    method TrackPods(nodeName: string)
      requires KeysMatch(podIndex) && nodeName != "" && nodeName in nodes
      requires nodes[nodeName].isNodeMatch && nodes[nodeName].matchingPods == map[]
      requires nodeName in enabled ==> QualifyingPods(criteria, podIndex, nodeName) != {}
      modifies `nodes, `enabled, `enabledIDs
      ensures nodeName in nodes && nodes == old(nodes)[nodeName := nodes[nodeName]]
      ensures nodes[nodeName].node == old(nodes)[nodeName].node && nodes[nodeName].isNodeMatch
      ensures nodes[nodeName].matchingPods.Keys == QualifyingPods(criteria, podIndex, nodeName)
      ensures enabled == With(old(enabled), nodeName, QualifyingPods(criteria, podIndex, nodeName) != {})
      ensures Touches(old(enabled), enabled, old(enabledIDs), enabledIDs, nodeName, nodes[nodeName].node.providerID)
    {
      var pods := GetNodePods(nodeName);
      TrackAll(nodeName, pods);
      AllQualifying(criteria, podIndex, pods, nodeName);
    }

    method TrackAll(nodeName: string, pods: seq<Pod>)
      requires nodeName != "" && nodeName in nodes && nodes[nodeName].isNodeMatch && nodes[nodeName].matchingPods == map[]
      requires forall i, j :: 0 <= i < j < |pods| ==> Key(pods[i]) != Key(pods[j])
      requires forall pod :: pod in pods ==> pod.nodeName == nodeName
      modifies `nodes, `enabled, `enabledIDs
      ensures nodeName in nodes && nodes == old(nodes)[nodeName := nodes[nodeName]]
      ensures nodes[nodeName].node == old(nodes)[nodeName].node && nodes[nodeName].isNodeMatch
      ensures Tracking(criteria, pods[..|pods|], nodes[nodeName].matchingPods, nodeName in enabled, nodeName in old(enabled))
      ensures enabled == With(old(enabled), nodeName, nodeName in enabled)
      ensures Touches(old(enabled), enabled, old(enabledIDs), enabledIDs, nodeName, nodes[nodeName].node.providerID)
    {
      for i := 0 to |pods|
        invariant nodeName in nodes && nodes == old(nodes)[nodeName := nodes[nodeName]]
        invariant nodes[nodeName].node == old(nodes)[nodeName].node && nodes[nodeName].isNodeMatch
        invariant Tracking(criteria, pods[..i], nodes[nodeName].matchingPods, nodeName in enabled, nodeName in old(enabled))
        invariant enabled == With(old(enabled), nodeName, nodeName in enabled)
        invariant Touches(old(enabled), enabled, old(enabledIDs), enabledIDs, nodeName, nodes[nodeName].node.providerID)
      {
        assert pods[i] in pods;
        TrackOneMore(criteria, pods, i, nodes[nodeName].matchingPods, nodeName in enabled, nodeName in old(enabled));
        ghost var nodes0, enabled0, ids0 := nodes, enabled, enabledIDs;
        TrackNext(pods[i]);
        TouchesTrans(old(enabled), enabled0, enabled, old(enabledIDs), ids0, enabledIDs, nodeName, nodes0[nodeName].node.providerID);
        assert nodes == nodes0[nodeName := nodes[nodeName]] && enabled == With(enabled0, nodeName, nodeName in enabled);
      }
    }

    method UpdateNode(node: Node)
      requires Valid() && node.name != ""
      modifies `nodes, `enabled, `enabledIDs
      ensures Valid() && Known() == KnownAfter(old(Known()), node)
      ensures Touches(old(enabled), enabled, old(enabledIDs), enabledIDs, node.name, node.providerID)
    {
      if node.deleting {
        DeleteNode(node);
        return;
      }
      if node.name !in nodes && node.providerID == "" {
        return;
      }
      var oldReservedIP := if node.name in nodes then nodes[node.name].node.reservedIP else "";
      var t := if node.name in nodes then nodes[node.name].(node := node) else Tracked(node, false, map[], false);
      var oldNodeMatch := t.isNodeMatch;
      var isMatch := IsNodeMatch(node);
      t := t.(isNodeMatch := isMatch);
      if oldReservedIP == node.reservedIP && oldNodeMatch == isMatch {
        OneNodeInStep(criteria, nodes, podIndex, enabled, t);
        nodes := nodes[node.name := t];
        return;
      }
      ChangeNode(t);
    }

    /** The rest of updateNode, when the match or the annotation has changed. */
    method ChangeNode(t: Tracked)
      requires Valid() && t.node.name != "" && t.isNodeMatch == NodeMatch(criteria, t.node)
      modifies `nodes, `enabled, `enabledIDs
      ensures Valid() && Known() == old(Known())[t.node.name := t.node]
      ensures Touches(old(enabled), enabled, old(enabledIDs), enabledIDs, t.node.name, t.node.providerID)
    {
      var cleared := if t.isNodeMatch && |t.matchingPods| > 0 then t.(matchingPods := map[]) else t;
      if t.isNodeMatch && Constrained(criteria) {
        Retrack(cleared);
        return;
      }
      var name, t' := t.node.name, cleared.(enabled := t.isNodeMatch);
      OneNodeInStep(criteria, nodes, podIndex, enabled, t');
      nodes := nodes[name := t'];
      if t.isNodeMatch {
        Enable(name, t.node.providerID);
      } else {
        Disable(name, t.node.providerID);
      }
    }

    method Retrack(t: Tracked)
      requires Valid() && t.node.name != "" && t.isNodeMatch && NodeMatch(criteria, t.node)
      requires Constrained(criteria) && t.matchingPods == map[]
      modifies `nodes, `enabled, `enabledIDs
      ensures Valid() && Known() == old(Known())[t.node.name := t.node]
      ensures Touches(old(enabled), enabled, old(enabledIDs), enabledIDs, t.node.name, t.node.providerID)
    {
      var name := t.node.name;
      EnabledHasPods(criteria, nodes, podIndex, enabled, name);
      nodes := nodes[name := t];
      TrackPods(name);
      OneNodeInStep(criteria, old(nodes), podIndex, old(enabled), nodes[name]);
      assert nodes == old(nodes)[name := nodes[name]];
    }

    /** The informer's call for an added or updated pod; the index holds it already. */
    method OnPodUpdate(pod: Pod)
      requires Valid() && Constrained(criteria) && (Key(pod) in podIndex ==> SamePod(podIndex[Key(pod)], pod))
      modifies this
      ensures Valid() && Known() == old(Known()) && podIndex == old(podIndex)[Key(pod) := pod]
      ensures Touches(old(enabled), enabled, old(enabledIDs), enabledIDs, pod.nodeName, IdOf(old(nodes), pod.nodeName))
    {
      PodUpdateInStep(criteria, nodes, podIndex, enabled, pod);
      podIndex := podIndex[Key(pod) := pod];
      UpdatePod(pod);
    }

    /** The informer's call for a deleted pod; the index does not hold it any more. */
    method OnPodDelete(pod: Pod)
      requires Valid() && Constrained(criteria) && (Key(pod) in podIndex ==> podIndex[Key(pod)].nodeName in {"", pod.nodeName})
      modifies this
      ensures Valid() && Known() == old(Known()) && podIndex == old(podIndex) - {Key(pod)}
      ensures Touches(old(enabled), enabled, old(enabledIDs), enabledIDs, pod.nodeName, IdOf(old(nodes), pod.nodeName))
    {
      PodDeleteInStep(criteria, nodes, podIndex, enabled, pod);
      podIndex := podIndex - {Key(pod)};
      DeletePod(pod);
    }

    /** OnAdd, OnUpdate and OnDelete. If the action had just the wanted provider ids enabled, it has them
        after the event exactly unless that put another machine under the name of an enabled node. */
    method Handle(e: Event, ghost cluster: Cluster)
      requires Valid() && Follows(Known(), podIndex, cluster) && Possible(criteria, cluster, e)
      modifies this
      ensures Valid() && Follows(Known(), podIndex, After(cluster, e))
      ensures DistinctIDs(cluster) && KeepsApart(cluster, e) && old(enabledIDs) == WantedIDs(criteria, cluster) ==>
        (enabledIDs == WantedIDs(criteria, After(cluster, e)) <==> !Replaces(criteria, cluster, e))
    {
      ghost var name, id := if e.NodeUpdate? || e.NodeDelete? then e.node.name else e.pod.nodeName, "";
      if e.NodeUpdate? || e.NodeDelete? {
        id := e.node.providerID;
      } else {
        id := IdOf(nodes, name);
      }
      InStepIsWanted(criteria, nodes, podIndex, enabled, cluster);
      match e {
        case NodeUpdate(node) =>
          FollowsUpdate(criteria, Known(), podIndex, cluster, node);
          UpdateNode(node);
        case NodeDelete(node) =>
          FollowsDelete(Known(), podIndex, cluster, node);
          DeleteNode(node);
        case PodUpdate(pod) =>
          FollowsPods(Known(), podIndex, cluster, pod);
          OnPodUpdate(pod);
        case PodDelete(pod) =>
          FollowsPods(Known(), podIndex, cluster, pod);
          OnPodDelete(pod);
      }
      InStepIsWanted(criteria, nodes, podIndex, enabled, After(cluster, e));
      if DistinctIDs(cluster) && KeepsApart(cluster, e) && old(enabledIDs) == WantedIDs(criteria, cluster) {
        PodsNode(old(Known()), old(nodes), old(podIndex), cluster, name);
        EventTells(criteria, cluster, e, old(enabledIDs), enabledIDs, name, id);
      }
    }

    /** Whatever the events, the enabled set in the end is the one recomputed from scratch, and so are
        the pods tracked on each matching node. The action has the right provider ids enabled if no event
        put another machine under the name of an enabled node. */
    method Replay(events: seq<Event>)
      requires nodes == map[] && podIndex == map[] && enabled == {} && enabledIDs == {}
      requires AllPossible(criteria, Cluster(map[], map[]), events)
      modifies this
      ensures enabled == Wanted(criteria, AfterAll(Cluster(map[], map[]), events))
      ensures TracksPods(criteria, nodes, AfterAll(Cluster(map[], map[]), events))
      ensures NoneReplaced(criteria, Cluster(map[], map[]), events) ==>
        enabledIDs == WantedIDs(criteria, AfterAll(Cluster(map[], map[]), events))
    {
      ghost var none := Cluster(map[], map[]);
      for i := 0 to |events|
        invariant Valid() && Follows(Known(), podIndex, AfterAll(none, events[..i]))
        invariant NoneReplaced(criteria, none, events) ==>
          DistinctIDs(AfterAll(none, events[..i])) && enabledIDs == WantedIDs(criteria, AfterAll(none, events[..i]))
      {
        assert events[..i + 1][..i] == events[..i];
        if NoneReplaced(criteria, none, events) {
          StaysDistinct(AfterAll(none, events[..i]), events[i]);
        }
        Handle(events[i], AfterAll(none, events[..i]));
      }
      assert events[..|events|] == events;
      InStepIsWanted(criteria, nodes, podIndex, enabled, AfterAll(none, events));
    }
  }

  lemma StaysDistinct(cluster: Cluster, e: Event)
    requires DistinctIDs(cluster) && KeepsApart(cluster, e)
    ensures DistinctIDs(After(cluster, e))
  {
    var t := After(cluster, e);
    forall name | Present(t, name)
      ensures
        || (e.NodeUpdate? && name == e.node.name && t.nodes[name] == e.node)
        || (Present(cluster, name) && t.nodes[name] == cluster.nodes[name])
    {
    }
  }

  /** A pod event tells the action about a node as it is known. */
  lemma PodsNode(known: map<string, Node>, nodes: map<string, Tracked>, pods: map<string, Pod>, cluster: Cluster, name: string)
    requires known == NodesOf(nodes) && Follows(known, pods, cluster) && DistinctIDs(cluster)
    ensures OwnID(cluster, IdOf(nodes, name), name)
    ensures Present(cluster, name) ==> cluster.nodes[name].providerID == IdOf(nodes, name)
  {
    assert name in nodes <==> name in known;
  }

  lemma EventTells(c: Criteria, cluster: Cluster, e: Event, ids: set<string>, ids': set<string>, name: string, id: string)
    requires DistinctIDs(cluster) && OwnID(cluster, id, name) && ids == WantedIDs(c, cluster)
    requires Touches(Wanted(c, cluster), Wanted(c, After(cluster, e)), ids, ids', name, id)
    requires if e.NodeUpdate? || e.NodeDelete? then name == e.node.name && id == e.node.providerID
             else Present(cluster, name) ==> cluster.nodes[name].providerID == id
    ensures ids' == WantedIDs(c, After(cluster, e)) <==> !Replaces(c, cluster, e)
  {
    IDsAfter(c, cluster, After(cluster, e), ids, ids', name, id);
  }

  /** What the calls for one node do to the ids, seen from the cluster. */
  lemma IDsAfter(c: Criteria, before: Cluster, after: Cluster, ids: set<string>, ids': set<string>, name: string, id: string)
    requires DistinctIDs(before) && OwnID(before, id, name) && ids == WantedIDs(c, before)
    requires Touches(Wanted(c, before), Wanted(c, after), ids, ids', name, id)
    requires before.nodes - {name} == after.nodes - {name}
    requires name in Wanted(c, after) ==> after.nodes[name].providerID == id
    ensures ids' == WantedIDs(c, after) <==> !(name in Wanted(c, before) && before.nodes[name].providerID != id)
  {
    forall other | other != name
      ensures other in before.nodes <==> other in after.nodes
      ensures other in before.nodes ==> before.nodes[other] == after.nodes[other] && (Present(before, other) <==> Present(after, other))
      ensures other in Wanted(c, before) <==> other in Wanted(c, after)
    {
      assert other in before.nodes - {name} <==> other in after.nodes - {name};
      assert other in Wanted(c, before) - {name} <==> other in Wanted(c, after) - {name};
    }
    if name in Wanted(c, before) && before.nodes[name].providerID != id {
      StaleIDStays(c, before, after, ids, ids', name, id);
    } else {
      forall x
        ensures x in ids' <==> x in WantedIDs(c, after)
      {
        if x == id {
          ItsIDFollows(c, before, after, ids, ids', name, id);
        } else {
          OtherIDFollows(c, before, after, name, id, x);
          assert x in ids' - {id} <==> x in ids - {id};
        }
      }
    }
  }

  ghost predicate SameBut(c: Criteria, before: Cluster, after: Cluster, name: string) {
    forall other :: other != name ==>
      && (other in Wanted(c, before) <==> other in Wanted(c, after))
      && (other in Wanted(c, before) ==> before.nodes[other] == after.nodes[other])
  }

  lemma StaleIDStays(c: Criteria, before: Cluster, after: Cluster, ids: set<string>, ids': set<string>, name: string, id: string)
    requires DistinctIDs(before) && ids == WantedIDs(c, before) && ids' - {id} == ids - {id}
    requires SameBut(c, before, after, name) && (name in Wanted(c, after) ==> after.nodes[name].providerID == id)
    requires name in Wanted(c, before) && before.nodes[name].providerID != id
    ensures ids' != WantedIDs(c, after)
  {
    var stale := before.nodes[name].providerID;
    assert stale in ids - {id};
    forall other | other in Wanted(c, after)
      ensures after.nodes[other].providerID != stale
    {
    }
  }

  lemma ItsIDFollows(c: Criteria, before: Cluster, after: Cluster, ids: set<string>, ids': set<string>, name: string, id: string)
    requires OwnID(before, id, name) && ids == WantedIDs(c, before)
    requires Touches(Wanted(c, before), Wanted(c, after), ids, ids', name, id)
    requires SameBut(c, before, after, name) && (name in Wanted(c, after) ==> after.nodes[name].providerID == id)
    requires name in Wanted(c, before) ==> before.nodes[name].providerID == id
    ensures id in ids' <==> id in WantedIDs(c, after)
  {
    assert id in ids <==> name in Wanted(c, before);
    forall other | other in Wanted(c, after) && other != name
      ensures after.nodes[other].providerID != id
    {
    }
  }

  lemma OtherIDFollows(c: Criteria, before: Cluster, after: Cluster, name: string, id: string, x: string)
    requires SameBut(c, before, after, name) && x != id
    requires name in Wanted(c, before) ==> before.nodes[name].providerID == id
    requires name in Wanted(c, after) ==> after.nodes[name].providerID == id
    ensures x in WantedIDs(c, before) <==> x in WantedIDs(c, after)
  {
  }

  /** The controller knows the pods of the cluster and its nodes that take part. */
  ghost predicate Follows(known: map<string, Node>, pods: map<string, Pod>, cluster: Cluster) {
    && pods == cluster.pods
    && (forall name :: name in cluster.nodes ==> cluster.nodes[name].name == name)
    && known == map name | name in cluster.nodes && Present(cluster, name) :: cluster.nodes[name]
  }

  lemma FollowsUpdate(c: Criteria, known: map<string, Node>, pods: map<string, Pod>, cluster: Cluster, node: Node)
    requires Follows(known, pods, cluster) && Possible(c, cluster, NodeUpdate(node))
    ensures Follows(KnownAfter(known, node), pods, After(cluster, NodeUpdate(node)))
  {
    var t := After(cluster, NodeUpdate(node));
    assert forall name :: name != node.name ==> (Present(t, name) <==> Present(cluster, name));
    assert Present(t, node.name) <==> !node.deleting && node.providerID != "";
  }

  lemma FollowsDelete(known: map<string, Node>, pods: map<string, Pod>, cluster: Cluster, node: Node)
    requires Follows(known, pods, cluster)
    ensures Follows(known - {node.name}, pods, After(cluster, NodeDelete(node)))
  {
    var t := After(cluster, NodeDelete(node));
    assert forall name :: Present(t, name) <==> name != node.name && Present(cluster, name);
  }

  lemma FollowsPods(known: map<string, Node>, pods: map<string, Pod>, cluster: Cluster, pod: Pod)
    requires Follows(known, pods, cluster)
    ensures Follows(known, pods[Key(pod) := pod], After(cluster, PodUpdate(pod)))
    ensures Follows(known, pods - {Key(pod)}, After(cluster, PodDelete(pod)))
  {
    var t, u := After(cluster, PodUpdate(pod)), After(cluster, PodDelete(pod));
    assert forall name :: (Present(t, name) <==> Present(cluster, name)) && (Present(u, name) <==> Present(cluster, name));
  }

  /** Every matching node tracks the pods that qualify it. */
  ghost predicate TracksPods(c: Criteria, nodes: map<string, Tracked>, cluster: Cluster) {
    forall name :: name in nodes && nodes[name].isNodeMatch && Constrained(c) ==>
      nodes[name].matchingPods.Keys == QualifyingPods(c, cluster.pods, name)
  }

  lemma InStepIsWanted(c: Criteria, nodes: map<string, Tracked>, pods: map<string, Pod>, enabled: set<string>, cluster: Cluster)
    requires InStep(c, nodes, pods, enabled) && Follows(NodesOf(nodes), pods, cluster)
    ensures enabled == Wanted(c, cluster) && TracksPods(c, nodes, cluster)
  {
    forall name
      ensures name in enabled <==> name in Wanted(c, cluster)
    {
      assert name in nodes <==> name in NodesOf(nodes);
    }
  }

  lemma EnabledHasPods(c: Criteria, nodes: map<string, Tracked>, pods: map<string, Pod>, enabled: set<string>, name: string)
    requires InStep(c, nodes, pods, enabled) && Constrained(c)
    ensures name in enabled ==> QualifyingPods(c, pods, name) != {}
  {
  }

  /** updatePod leaves a pod alone that is not scheduled, or not on a matching node. */
  predicate Ignores(nodes: map<string, Tracked>, pod: Pod) {
    pod.nodeName == "" || pod.nodeName !in nodes || (!pod.deleting && !nodes[pod.nodeName].isNodeMatch)
  }

  /** The rest of updatePod, once the node was found to match. */
  method TrackPod(c: Criteria, t: Tracked, pod: Pod, ghost was: bool) returns (t': Tracked, call: ActionCall)
    requires !pod.deleting
    ensures t' == t.(matchingPods := PodsAfter(c, t.matchingPods, pod), enabled := t'.enabled)
    ensures Outcome(call, was) == ActionAfter(c, t.matchingPods, pod, was)
  {
    t', call := t, NoCall;
    if c.podNamespace != "" && pod.namespace != c.podNamespace {
      return;
    }
    if c.podSelector.Some? && !c.podSelector.value(pod.labels) {
      return;
    }
    var active := Key(pod) in t.matchingPods;
    var ready := LastReady(pod.conditions);
    var running := pod.phase == RUNNING;
    if (ready && running) == active {
      return;
    }
    if ready && running {
      var pods := t.matchingPods[Key(pod) := pod];
      t' := t.(matchingPods := pods);
      if |pods| == 1 {
        t', call := t'.(enabled := true), EnableCall;
      }
    } else {
      var pods := t.matchingPods - {Key(pod)};
      t' := t.(matchingPods := pods);
      if |pods| == 0 {
        call := DisableCall;
      }
    }
  }

  /** The keys of the listed pods that qualify. */
  function Qualifying(c: Criteria, pods: seq<Pod>): set<string> {
    set pod | pod in pods && Qualifies(c, pod) :: Key(pod)
  }

  lemma QualifyingOneMore(c: Criteria, pods: seq<Pod>, i: nat)
    requires i < |pods| && forall a, b :: 0 <= a < b < |pods| ==> Key(pods[a]) != Key(pods[b])
    ensures Key(pods[i]) !in Qualifying(c, pods[..i])
    ensures Qualifying(c, pods[..i + 1]) ==
      if Qualifies(c, pods[i]) then Qualifying(c, pods[..i]) + {Key(pods[i])} else Qualifying(c, pods[..i])
  {
  }

  /** The state of the loop over the pods of a node: those that qualify are tracked, and the node is
      enabled if there are some, or if it was at first. */
  ghost predicate Tracking(c: Criteria, listed: seq<Pod>, tracked: map<string, Pod>, on: bool, first: bool) {
    tracked.Keys == Qualifying(c, listed) && (tracked != map[] ==> on) && (on ==> tracked != map[] || first)
  }

  lemma TrackingGoesOn(c: Criteria, pods: seq<Pod>, i: nat, tracked: map<string, Pod>, on: bool, first: bool,
                       after: map<string, Pod>, on': bool)
    requires i < |pods| && forall a, b :: 0 <= a < b < |pods| ==> Key(pods[a]) != Key(pods[b])
    requires Tracking(c, pods[..i], tracked, on, first)
    requires after.Keys == if Qualifies(c, pods[i]) then tracked.Keys + {Key(pods[i])} else tracked.Keys - {Key(pods[i])}
    requires (after != map[] ==> on') && (on' ==> after != map[] || (on && tracked == map[]))
    ensures Tracking(c, pods[..i + 1], after, on', first)
  {
    QualifyingOneMore(c, pods, i);
  }

  lemma TrackOneMore(c: Criteria, pods: seq<Pod>, i: nat, tracked: map<string, Pod>, on: bool, first: bool)
    requires i < |pods| && forall a, b :: 0 <= a < b < |pods| ==> Key(pods[a]) != Key(pods[b])
    requires Tracking(c, pods[..i], tracked, on, first)
    ensures Tracking(c, pods[..i + 1], PodsAfter(c, tracked, pods[i]), ActionAfter(c, tracked, pods[i], on), first)
  {
    QualifyingOneMore(c, pods, i);
    PodsAfterKeys(c, tracked, pods[i]);
    ActionFollows(c, tracked, pods[i], on);
    TrackingGoesOn(c, pods, i, tracked, on, first, PodsAfter(c, tracked, pods[i]), ActionAfter(c, tracked, pods[i], on));
  }

  lemma AllQualifying(c: Criteria, index: map<string, Pod>, pods: seq<Pod>, nodeName: string)
    requires KeysMatch(index)
    requires forall pod :: pod in pods <==> Key(pod) in index && index[Key(pod)] == pod && pod.nodeName == nodeName
    ensures Qualifying(c, pods) == QualifyingPods(c, index, nodeName) && pods[..|pods|] == pods
  {
  }

  /** The last Ready condition decides. */
  method LastReady(conditions: seq<Condition>) returns (ready: bool)
    ensures ready == IsReady(conditions)
  {
    ready := false;
    for i := 0 to |conditions|
      invariant ready == IsReady(conditions[..i])
    {
      ReadyOneMore(conditions, i);
      if conditions[i].kind == READY {
        ready := conditions[i].status == TRUE;
      }
    }
    assert conditions[..|conditions|] == conditions;
  }

  lemma ReadyOneMore(conditions: seq<Condition>, i: nat)
    requires i < |conditions|
    ensures IsReady(conditions[..i + 1]) ==
      if conditions[i].kind == READY then conditions[i].status == TRUE else IsReady(conditions[..i])
  {
    var before, after := conditions[..i], conditions[..i + 1];
    assert after == before + [conditions[i]];
    if IsReady(before) && conditions[i].kind != READY {
      var k :| 0 <= k < |before| && before[k].kind == READY && before[k].status == TRUE
        && forall j :: k < j < |before| ==> before[j].kind != READY;
      assert after[k] == before[k];
    }
    if conditions[i].kind == READY && conditions[i].status == TRUE {
      assert after[i] == conditions[i];
    }
  }

  // ----- pod events -----

  /** One node's pods change, and its record and enablement with them. */
  lemma OnePodInStep(c: Criteria, nodes: map<string, Tracked>, pods: map<string, Pod>, pods': map<string, Pod>,
                     enabled: set<string>, name: string, t: Tracked, on: bool)
    requires InStep(c, nodes, pods, enabled) && KeysMatch(pods') && Constrained(c)
    requires name in nodes && t.node == nodes[name].node && t.isNodeMatch == nodes[name].isNodeMatch
    requires forall other :: other in nodes && other != name ==> QualifyingPods(c, pods', other) == QualifyingPods(c, pods, other)
    requires t.isNodeMatch ==> t.matchingPods.Keys == QualifyingPods(c, pods', name)
    requires on <==> ShouldEnable(c, t.node, pods')
    ensures InStep(c, nodes[name := t], pods', With(enabled, name, on))
    ensures NodesOf(nodes[name := t]) == NodesOf(nodes)
  {
    forall other | other in nodes && other != name
      ensures Current(c, nodes[other], pods') && (other in enabled <==> ShouldEnable(c, nodes[other].node, pods'))
    {
      assert Current(c, nodes[other], pods) && QualifyingPods(c, pods', other) == QualifyingPods(c, pods, other);
    }
  }

  lemma NoPodInStep(c: Criteria, nodes: map<string, Tracked>, pods: map<string, Pod>, pods': map<string, Pod>, enabled: set<string>)
    requires InStep(c, nodes, pods, enabled) && KeysMatch(pods') && Constrained(c)
    requires forall name :: name in nodes && nodes[name].isNodeMatch ==> QualifyingPods(c, pods', name) == QualifyingPods(c, pods, name)
    ensures InStep(c, nodes, pods', enabled)
  {
  }

  /** Only the pod's own node hears of it. */
  lemma OthersKeep(c: Criteria, nodes: map<string, Tracked>, pods: map<string, Pod>, pod: Pod)
    requires KeysMatch(pods) && forall name :: name in nodes ==> name != ""
    requires Key(pod) in pods ==> pods[Key(pod)].nodeName in {"", pod.nodeName}
    ensures forall other :: other in nodes && other != pod.nodeName ==>
      QualifyingPods(c, pods[Key(pod) := pod], other) == QualifyingPods(c, pods, other)
    ensures forall other :: other in nodes && other != pod.nodeName ==>
      QualifyingPods(c, pods - {Key(pod)}, other) == QualifyingPods(c, pods, other)
  {
    forall other | other in nodes && other != pod.nodeName
      ensures QualifyingPods(c, pods[Key(pod) := pod], other) == QualifyingPods(c, pods, other)
      ensures QualifyingPods(c, pods - {Key(pod)}, other) == QualifyingPods(c, pods, other)
    {
      OtherNodesKeep(c, pods, pod, other);
    }
  }

  /** What updatePod makes of a current record, and whether the node is enabled then. */
  lemma ItsRecord(c: Criteria, t: Tracked, pods: map<string, Pod>, pod: Pod, was: bool)
    requires Current(c, t, pods) && Constrained(c) && t.node.name == pod.nodeName && (pod.deleting || t.isNodeMatch)
    requires Key(pod) in pods ==> SamePod(pods[Key(pod)], pod)
    requires was <==> ShouldEnable(c, t.node, pods)
    ensures t.isNodeMatch ==> PodsAfter(c, t.matchingPods, pod).Keys == QualifyingPods(c, pods[Key(pod) := pod], t.node.name)
    ensures ActionAfter(c, t.matchingPods, pod, was) <==> ShouldEnable(c, t.node, pods[Key(pod) := pod])
  {
    if t.isNodeMatch {
      PodsAfterKeys(c, t.matchingPods, pod);
      ItsNodeGets(c, pods, pod);
      ActionFollows(c, t.matchingPods, pod, was);
    }
  }

  lemma PodRecordInStep(c: Criteria, nodes: map<string, Tracked>, pods: map<string, Pod>, enabled: set<string>, pod: Pod, flag: bool)
    requires InStep(c, nodes, pods, enabled) && Constrained(c) && !Ignores(nodes, pod)
    requires Key(pod) in pods ==> SamePod(pods[Key(pod)], pod)
    ensures var name, t := pod.nodeName, nodes[pod.nodeName];
      var t' := t.(matchingPods := PodsAfter(c, t.matchingPods, pod), enabled := flag);
      && InStep(c, nodes[name := t'], pods[Key(pod) := pod], With(enabled, name, ActionAfter(c, t.matchingPods, pod, name in enabled)))
      && NodesOf(nodes[name := t']) == NodesOf(nodes)
  {
    var name, t, was := pod.nodeName, nodes[pod.nodeName], pod.nodeName in enabled;
    OthersKeep(c, nodes, pods, pod);
    ItsRecord(c, t, pods, pod, was);
    var t' := t.(matchingPods := PodsAfter(c, t.matchingPods, pod), enabled := flag);
    OnePodInStep(c, nodes, pods, pods[Key(pod) := pod], enabled, name, t', ActionAfter(c, t.matchingPods, pod, was));
  }

  lemma PodUpdateInStep(c: Criteria, nodes: map<string, Tracked>, pods: map<string, Pod>, enabled: set<string>, pod: Pod)
    requires InStep(c, nodes, pods, enabled) && Constrained(c)
    requires Key(pod) in pods ==> SamePod(pods[Key(pod)], pod)
    ensures Ignores(nodes, pod) ==> InStep(c, nodes, pods[Key(pod) := pod], enabled)
    ensures !Ignores(nodes, pod) ==> forall flag: bool ::
      var name, t := pod.nodeName, nodes[pod.nodeName];
      var t' := t.(matchingPods := PodsAfter(c, t.matchingPods, pod), enabled := flag);
      && InStep(c, nodes[name := t'], pods[Key(pod) := pod], With(enabled, name, ActionAfter(c, t.matchingPods, pod, name in enabled)))
      && NodesOf(nodes[name := t']) == NodesOf(nodes)
  {
    if Ignores(nodes, pod) {
      OthersKeep(c, nodes, pods, pod);
      NoPodInStep(c, nodes, pods, pods[Key(pod) := pod], enabled);
    } else {
      PodRecordInStep(c, nodes, pods, enabled, pod, false);
      PodRecordInStep(c, nodes, pods, enabled, pod, true);
    }
  }

  lemma PodDeleteInStep(c: Criteria, nodes: map<string, Tracked>, pods: map<string, Pod>, enabled: set<string>, pod: Pod)
    requires InStep(c, nodes, pods, enabled) && Constrained(c)
    requires Key(pod) in pods ==> pods[Key(pod)].nodeName in {"", pod.nodeName}
    ensures pod.nodeName == "" || pod.nodeName !in nodes ==> InStep(c, nodes, pods - {Key(pod)}, enabled)
    ensures pod.nodeName in nodes ==>
      var name, t := pod.nodeName, nodes[pod.nodeName];
      var t' := t.(matchingPods := t.matchingPods - {Key(pod)});
      && InStep(c, nodes[name := t'], pods - {Key(pod)}, With(enabled, name, name in enabled && t'.matchingPods != map[]))
      && NodesOf(nodes[name := t']) == NodesOf(nodes)
  {
    var name, pods' := pod.nodeName, pods - {Key(pod)};
    OthersKeep(c, nodes, pods, pod);
    if name !in nodes {
      NoPodInStep(c, nodes, pods, pods', enabled);
    } else {
      ItsNodeGets(c, pods, pod);
      var t' := nodes[name].(matchingPods := nodes[name].matchingPods - {Key(pod)});
      OnePodInStep(c, nodes, pods, pods', enabled, name, t', name in enabled && t'.matchingPods != map[]);
    }
  }

  // ----- a machine that is missed -----

  /** A node object recreated under its old name, for another machine but otherwise the same, is taken for
      an unchanged one: the new machine is wanted and not enabled. */
  method RecreatedIsMissed() returns (ids: set<string>, wanted: set<string>)
    ensures wanted == {"b"} && ids != wanted
  {
    var criteria := Criteria(None, [], "", None);
    var a := Node("n", "a", false, map[], [], [Condition(READY, TRUE)], "");
    var b := a.(providerID := "b");
    var c0, c1, c2 := Cluster(map[], map[]), Cluster(map["n" := a], map[]), Cluster(map["n" := b], map[]);
    OnlyNode(criteria, a);
    OnlyNode(criteria, b);
    var m := new Controller(criteria);
    m.Handle(NodeUpdate(a), c0);
    m.Handle(NodeUpdate(b), c1);
    ids, wanted := m.enabledIDs, WantedIDs(criteria, c2);
  }

  lemma OnlyNode(c: Criteria, node: Node)
    requires c == Criteria(None, [], "", None) && node.taints == [] && node.conditions == [Condition(READY, TRUE)]
    requires !node.deleting && node.providerID != ""
    ensures var cluster := Cluster(map[node.name := node], map[]);
      Wanted(c, cluster) == {node.name} && WantedIDs(c, cluster) == {node.providerID}
  {
    assert node.conditions[0].kind == READY && IsReady(node.conditions);
  }
}
