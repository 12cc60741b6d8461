// The values the cluster accounting passes around: states, conditions, extents
// and runs, with what it means for a list of runs to tile a range.
module AllocTypes {
  import opened Prelude

  // What the cluster bitmap and the bad cluster list say about one cluster.
  datatype ClusterState = Allocated | Free | OutOfRange | Unknown | Bad

  // What is known of one cluster of a stream.
  datatype ClusterCondition =
    | Invalid | Bad | NeverWritten
    | ReallocatedWritten | ReallocatedUnwritten
    | OverwrittenThenFreed | Contested
    | AllocatedUnknownOwner | Unknown | Intact
    | LostWithUnit
    | Consistent | FreeButClaimed | CrossLinked
    | Sparse
    | Zeroed | OverwrittenByMetadata | IntactChecked

  // Whether a cluster of this condition is probably not the file's own content.
  predicate IsDamaged(c: ClusterCondition) {
    !(c.Intact? || c.IntactChecked? || c.Consistent? || c.Sparse? || c.NeverWritten?)
  }

  // A run of real clusters.
  datatype Extent = Extent(lcn: nat, clusters: nat)

  // A run of clusters that share one state.
  datatype ClusterRun = ClusterRun(lcn: nat, clusters: nat, state: ClusterState)

  // A range of VCNs of a stream.
  datatype VcnRange = VcnRange(vcn: nat, clusters: nat)

  // One run of a stream: a hole when lcn is absent.
  datatype LayoutRun = LayoutRun(vcn: nat, clusters: nat, lcn: Option<nat>)

  // How one non-resident attribute maps its clusters.
  datatype StreamLayout = StreamLayout(
    runs: seq<LayoutRun>,
    declaredClusters: nat,
    coveredEnd: nat,
    initializedClusters: nat,
    dataSize: nat,
    initializedSize: nat,
    unitClusters: nat,
    encrypted: bool)

  // runs are nonempty, follow one another from first to end with no gap, and
  // give each cluster the state that stateAt gives it.
  ghost predicate RunsTile(runs: seq<ClusterRun>, first: nat, end: nat, stateAt: nat -> ClusterState) {
    if runs == [] then first == end
    else
      var last := runs[|runs| - 1];
      && last.clusters > 0
      && last.lcn + last.clusters == end
      && (forall x :: last.lcn <= x < end ==> stateAt(x) == last.state)
      && RunsTile(runs[..|runs| - 1], first, last.lcn, stateAt)
  }

  // What RunsTile says of the run at k, read from the front.
  lemma {:induction false} RunsTileAt(runs: seq<ClusterRun>, first: nat, end: nat, stateAt: nat -> ClusterState, k: nat)
    requires RunsTile(runs, first, end, stateAt) && k < |runs|
    ensures runs[k].clusters > 0
    ensures runs[k].lcn == if k == 0 then first else runs[k - 1].lcn + runs[k - 1].clusters
    ensures first <= runs[k].lcn && runs[k].lcn + runs[k].clusters <= end
    ensures k == |runs| - 1 ==> runs[k].lcn + runs[k].clusters == end
    ensures forall x :: runs[k].lcn <= x < runs[k].lcn + runs[k].clusters ==> stateAt(x) == runs[k].state
  {
    var n := |runs| - 1;
    var front := runs[..n];
    if k < n {
      RunsTileAt(front, first, runs[n].lcn, stateAt, k);
    } else if n > 0 {
      RunsTileAt(front, first, runs[n].lcn, stateAt, n - 1);
    }
  }
}
