/** The merge loop of `PortsModel.load` (PortListView.swift): each installed
    port is paired with the latest version the registry reported for its
    name. */
module Reconcile {
  import opened Wrappers
  import opened Ports

  /** The loop body: a port whose name is a key of `versions` is rebuilt
      with that value as its latest version; any other port is kept as it
      is. */
  function Refresh(p: Port, versions: map<string, string>): (q: Port)
    ensures q.name == p.name && q.version == p.version
    ensures p.name in versions ==> q.latestVersion == Some(versions[p.name])
    ensures p.name !in versions ==> q == p
  {
    if p.name in versions then Port(p.name, p.version, Some(versions[p.name])) else p
  }

  /** The merged list, in the order of `ports`. */
  function Merge(ports: seq<Port>, versions: map<string, string>): (updated: seq<Port>)
    ensures |updated| == |ports|
    ensures forall i :: 0 <= i < |ports| ==>
              updated[i].name == ports[i].name && updated[i].version == ports[i].version
    ensures forall i :: 0 <= i < |ports| && ports[i].name in versions ==>
              updated[i].latestVersion == Some(versions[ports[i].name])
    ensures forall i :: 0 <= i < |ports| && ports[i].name !in versions ==>
              updated[i] == ports[i]
  {
    if |ports| == 0 then [] else [Refresh(ports[0], versions)] + Merge(ports[1..], versions)
  }

  /** Merging a merged list again with the same versions changes nothing. */
  lemma MergeIdempotent(ports: seq<Port>, versions: map<string, string>)
    ensures Merge(Merge(ports, versions), versions) == Merge(ports, versions)
  {
    var once := Merge(ports, versions);
    var twice := Merge(once, versions);
    forall i | 0 <= i < |ports|
      ensures twice[i] == once[i]
    {
      if ports[i].name in versions {
        assert once[i] == Port(ports[i].name, ports[i].version, Some(versions[ports[i].name]));
      }
    }
  }

  /** The status each merged port shows: a port the registry knows is
      latest exactly when the registry's version equals the installed one,
      and outdated otherwise; any other port keeps its status.  Identifiers
      do not change. */
  lemma MergedStatus(ports: seq<Port>, versions: map<string, string>, i: nat)
    requires i < |ports|
    ensures var p, q := ports[i], Merge(ports, versions)[i];
      && Id(q) == Id(p)
      && (p.name in versions ==>
            (StatusOf(q) == Latest <==> versions[p.name] == p.version)
            && (StatusOf(q) == Outdated <==> versions[p.name] != p.version))
      && (p.name !in versions ==> StatusOf(q) == StatusOf(p))
  {
  }

  /** For ports that have no latest version yet, as the inventory parser
      produces them, the merge answers "unknown" exactly for the names the
      registry did not report. */
  lemma MergedFreshUnknown(ports: seq<Port>, versions: map<string, string>)
    requires forall i :: 0 <= i < |ports| ==> ports[i].latestVersion.None?
    ensures forall i :: 0 <= i < |ports| ==>
              (StatusOf(Merge(ports, versions)[i]) == Unknown <==> ports[i].name !in versions)
  {
  }

  /** An empty version map leaves the list as it is. */
  lemma MergeNothing(ports: seq<Port>)
    ensures Merge(ports, map[]) == ports
  {
  }
}
