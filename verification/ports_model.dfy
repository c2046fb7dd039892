/** `PortsModel` of PortListView.swift: the observable state the list view
    shows and the `load()` that refreshes it.  The shell command, the
    registry and the clock become arguments: the outcome of
    `loadLocalPorts`, a function from the requested names to the outcome of
    `fetchPortVersions`, and the formatted time of the check. */
module PortsModel {
  import opened Wrappers
  import opened Ports
  import opened Reconcile

  /** The observable fields `ports`, `loading` and `lastCheck`. */
  datatype Model = Model(ports: seq<Port>, loading: bool, lastCheck: Option<string>)

  /** `init(ports:)`: shows the given ports, not loading, never checked. */
  function Init(ports: seq<Port>): (m: Model)
    ensures m.ports == ports && !m.loading && m.lastCheck.None?
  {
    Model(ports, false, None)
  }

  /** `ports.map { $0.name }`: the names sent to the registry. */
  function Names(ports: seq<Port>): (names: seq<string>)
    ensures |names| == |ports|
    ensures forall i :: 0 <= i < |ports| ==> names[i] == ports[i].name
  {
    if |ports| == 0 then [] else [ports[0].name] + Names(ports[1..])
  }

  /** The state after each assignment `load()` performs, in order.  On a
      local failure only the `catch` runs.  Otherwise the local list is
      published at once and `loading` raised; a registry failure then only
      lowers `loading`, while a registry success lowers it, stamps the check
      and publishes the merged list. */
  function LoadTrace(m: Model, local: Outcome<seq<Port>>,
                     fetch: seq<string> -> Outcome<map<string, string>>,
                     stamp: string): (trace: seq<Model>)
    ensures |trace| > 0 && !trace[|trace| - 1].loading
    // a local success is published at once, and shown with `loading` raised
    // and the previous check time before the registry's answer is applied
    ensures local.Success? ==> trace[0].ports == local.value
    ensures local.Success? ==>
              exists k :: 0 <= k < |trace| - 1 && trace[k] == Model(local.value, true, m.lastCheck)
    // every published list is the old one, the local one or the merged one, never a mix
    ensures forall k :: 0 <= k < |trace| ==>
              || trace[k].ports == m.ports
              || (local.Success? && trace[k].ports == local.value)
              || (local.Success? && fetch(Names(local.value)).Success?
                  && trace[k].ports == Merge(local.value, fetch(Names(local.value)).value))
    // while loading, the view shows the local list and the previous check
    ensures forall k :: 0 <= k < |trace| && trace[k].loading ==>
              local.Success? && trace[k].ports == local.value && trace[k].lastCheck == m.lastCheck
    // the check time moves only when both calls succeeded
    ensures forall k :: 0 <= k < |trace| && trace[k].lastCheck != m.lastCheck ==>
              local.Success? && fetch(Names(local.value)).Success? && trace[k].lastCheck == Some(stamp)
  {
    match local
    case Failure => [m.(loading := false)]
    case Success(installed) =>
      var published := m.(ports := installed);
      var started := published.(loading := true);
      match fetch(Names(started.ports))
      case Failure =>
        var trace := [published, started, started.(loading := false)];
        assert trace[1] == Model(installed, true, m.lastCheck);
        trace
      case Success(versions) =>
        var loaded := started.(loading := false);
        var checked := loaded.(lastCheck := Some(stamp));
        var trace := [published, started, loaded, checked, checked.(ports := Merge(installed, versions))];
        assert trace[1] == Model(installed, true, m.lastCheck);
        trace
  }

  /** The state `load()` leaves behind. */
  function Load(m: Model, local: Outcome<seq<Port>>,
                fetch: seq<string> -> Outcome<map<string, string>>,
                stamp: string): (m': Model)
    ensures !m'.loading
    ensures local.Failure? ==> m'.ports == m.ports && m'.lastCheck == m.lastCheck
    ensures local.Success? && fetch(Names(local.value)).Failure? ==>
              m'.ports == local.value && m'.lastCheck == m.lastCheck
    ensures local.Success? && fetch(Names(local.value)).Success? ==>
              m'.ports == Merge(local.value, fetch(Names(local.value)).value)
              && m'.lastCheck == Some(stamp)
  {
    var trace := LoadTrace(m, local, fetch, stamp);
    trace[|trace| - 1]
  }
}
