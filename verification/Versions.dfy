/** Why the service of a cell never hands back a version twice: the publishes of one function do not. */
module Versions {
  import opened Wrappers
  import opened Service
  import ControlPlane

  /** The versions handed back in the history are those of the operations, in order: operation `i`'s at event `at[i]`. */
  ghost predicate Publishes(log: seq<Event>, handed: seq<Option<nat>>, at: seq<nat>) {
    && |at| == |handed|
    && (forall i :: 0 <= i < |at| && handed[i].Some? ==> at[i] < |log| && Hands(log[at[i]], handed[i].value))
    && (forall i, j :: 0 <= i < j < |at| && handed[i].Some? && handed[j].Some? ==> at[i] < at[j])
    && (forall n :: 0 <= n < |log| && log[n].Published? && log[n].published.Ok? ==>
          exists i :: 0 <= i < |at| && handed[i].Some? && at[i] == n)
  }

  /** Whatever bumps and publishes of a function fail in between, each version handed back is new to the history. */
  lemma HandedOnce(log: seq<Event>, ops: seq<ControlPlane.Op>, handed: seq<Option<nat>>, at: seq<nat>,
                   versions: seq<ControlPlane.Version>, least: nat, deployed: ControlPlane.Env, n: nat)
    requires ControlPlane.Issued(ops, handed, versions, least, deployed) && Publishes(log, handed, at)
    requires n < |log| && log[n].Published? && log[n].published.Ok?
    ensures !Handed(log[..n], log[n].published.value)
  {
    var v := log[n].published.value;
    var j :| 0 <= j < |at| && handed[j].Some? && at[j] == n;
    forall m | 0 <= m < n ensures !Hands(log[m], v) {
      if log[m].Published? && log[m].published.Ok? {
        var i :| 0 <= i < |at| && handed[i].Some? && at[i] == m;
        assert i < j;
      }
    }
  }
}
