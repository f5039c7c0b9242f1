/** Edge node records as the control plane holds them in memory. */
module EdgeNodes {
  import opened Sequences

  type NodeId = string

  datatype EdgeNodeStatus = HEALTHY | DEGRADED | DOWN

  datatype EdgeNodeRecord = EdgeNodeRecord(
    id: NodeId, region: string, endpointUrl: string, status: EdgeNodeStatus, missedCycles: nat)

  function Ids(nodes: seq<EdgeNodeRecord>): (r: seq<NodeId>)
    ensures |r| == |nodes|
    ensures forall i :: 0 <= i < |nodes| ==> r[i] == nodes[i].id
  {
    seq(|nodes|, i requires 0 <= i < |nodes| => nodes[i].id)
  }

  /** The nodes whose id lies in `chosen`, in their original order. */
  function Select(nodes: seq<EdgeNodeRecord>, chosen: set<NodeId>): (r: seq<EdgeNodeRecord>)
    ensures forall n :: n in r <==> n in nodes && n.id in chosen
  {
    if nodes == [] then [] else
      assert nodes == Front(nodes) + [Last(nodes)];
      var r := Select(Front(nodes), chosen);
      if Last(nodes).id in chosen then r + [Last(nodes)] else r
  }

  function HealthyIds(nodes: seq<EdgeNodeRecord>): set<NodeId> {
    set n | n in nodes && n.status == HEALTHY :: n.id
  }

  function HealthyNodes(nodes: seq<EdgeNodeRecord>): (r: seq<EdgeNodeRecord>)
    ensures forall n :: n in r <==> n in nodes && n.status == HEALTHY
  {
    if nodes == [] then [] else
      assert nodes == Front(nodes) + [Last(nodes)];
      var r := HealthyNodes(Front(nodes));
      if Last(nodes).status == HEALTHY then r + [Last(nodes)] else r
  }

  lemma IdsMember(nodes: seq<EdgeNodeRecord>)
    ensures forall n :: n in nodes ==> n.id in Ids(nodes)
    ensures forall id :: id in Ids(nodes) ==> exists n :: n in nodes && n.id == id
  {
    forall n | n in nodes ensures n.id in Ids(nodes) {
      var i :| 0 <= i < |nodes| && nodes[i] == n;
      assert Ids(nodes)[i] == n.id;
    }
    forall id | id in Ids(nodes) ensures exists n :: n in nodes && n.id == id {
      var i :| 0 <= i < |nodes| && Ids(nodes)[i] == id;
      assert nodes[i] in nodes;
    }
  }

  lemma HealthySubset(nodes: seq<EdgeNodeRecord>)
    ensures ToSet(Ids(HealthyNodes(nodes))) == HealthyIds(nodes) <= ToSet(Ids(nodes))
  {
    IdsMember(nodes);
    IdsMember(HealthyNodes(nodes));
  }

  lemma {:induction false} SelectDistinct(nodes: seq<EdgeNodeRecord>, chosen: set<NodeId>)
    requires Distinct(Ids(nodes))
    ensures Ids(Select(nodes, chosen)) == Restrict(Ids(nodes), chosen)
    ensures Distinct(Ids(Select(nodes, chosen)))
  {
    if nodes != [] {
      assert Front(Ids(nodes)) == Ids(Front(nodes));
      SelectDistinct(Front(nodes), chosen);
      RestrictDistinct(Ids(nodes), chosen);
    }
  }

  lemma SingleId(nodes: seq<EdgeNodeRecord>, id: NodeId)
    requires Distinct(Ids(nodes)) && forall n :: n in nodes ==> n.id == id
    ensures |nodes| <= 1
  {
    IdsMember(nodes);
    DistinctSize(Ids(nodes));
    SubsetSize(ToSet(Ids(nodes)), {id});
  }
}
