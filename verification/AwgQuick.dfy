/** Tunnel.State */
module Tunnels {
  datatype State = UP | DOWN | TOGGLE
}

/** AwgQuickBackend.setState: tunnels brought up and down by awg-quick, with rewinding on failure. */
module AwgQuick {
  import opened Tunnels
  import opened Wrappers

  /** The rooted shell's answers: the n-th command goes through if the interface allows it. */
  type Script = nat -> bool

  /**
   The backend and the interfaces it acts on.  awg-quick refuses to bring up an interface that exists
   and to take down one that does not, and a command that fails leaves the interfaces as they were.
   */
  class Backend<Tunnel(==), Config(==)> {
    var runningConfigs: map<Tunnel, Config>
    var currentTunnel: Option<Tunnel>
    var multipleTunnels: bool
    var interfaces: set<Tunnel>

    constructor ()
      ensures runningConfigs == map[] && currentTunnel == None && !multipleTunnels && interfaces == {}
    {
      runningConfigs, currentTunnel, multipleTunnels, interfaces := map[], None, false, {};
    }

    /** Every recorded config belongs to an interface. */
    ghost predicate Consistent()
      reads this
    {
      runningConfigs.Keys <= interfaces
    }

    /** The map and the interfaces have lost the same tunnels, if any, and gained none. */
    ghost predicate Within(configs: map<Tunnel, Config>, ifaces: set<Tunnel>)
      reads this
    {
      runningConfigs.Items <= configs.Items && interfaces <= ifaces && ifaces - interfaces <= configs.Keys
    }

    /** setStateInternal(tunnel, config, UP); a null config is refused. */
    method BringUp(tunnel: Tunnel, config: Option<Config>, answer: bool) returns (ok: bool)
      modifies this
      ensures multipleTunnels == old(multipleTunnels)
      ensures ok == (config.Some? && answer && tunnel !in old(interfaces))
      ensures ok ==>
              interfaces == old(interfaces) + {tunnel} && runningConfigs == old(runningConfigs)[tunnel := config.value]
                     && currentTunnel == Some(tunnel)
      ensures !ok ==> unchanged(this)
    {
      ok := config.Some? && answer && tunnel !in interfaces;
      if ok {
        interfaces := interfaces + {tunnel};
        runningConfigs := runningConfigs[tunnel := config.value];
        currentTunnel := Some(tunnel);
      }
    }

    /** setStateInternal(tunnel, config, DOWN) */
    method TakeDown(tunnel: Tunnel, config: Option<Config>, answer: bool) returns (ok: bool)
      modifies this
      ensures multipleTunnels == old(multipleTunnels)
      ensures ok == (config.Some? && answer && tunnel in old(interfaces))
      ensures ok ==> interfaces == old(interfaces) - {tunnel} && runningConfigs == old(runningConfigs) - {tunnel}
                     && currentTunnel == None
      ensures !ok ==> unchanged(this)
    {
      ok := config.Some? && answer && tunnel in interfaces;
      if ok {
        interfaces := interfaces - {tunnel};
        runningConfigs := runningConfigs - {tunnel};
        currentTunnel := None;
      }
    }

    /** Brings up again what is missing of a snapshot, in some order, until a step fails. */
    method Rewind(snapshot: map<Tunnel, Config>, down: set<Tunnel>, rollback: Script, ghost before: set<Tunnel>)
      requires down <= snapshot.Keys && down <= before
      requires runningConfigs == snapshot - down && interfaces == before - down
      modifies this
      ensures multipleTunnels == old(multipleTunnels)
      ensures (forall n: nat :: rollback(n)) ==> runningConfigs == snapshot && interfaces == before
      ensures Within(snapshot, before) && (snapshot.Keys <= before ==> Consistent())
    {
      var left, n: nat := down, 0;
      while left != {}
        invariant left <= down && multipleTunnels == old(multipleTunnels)
        invariant runningConfigs == snapshot - left && interfaces == before - left
        decreases left
      {
        var t :| t in left;
        var ok := BringUp(t, Some(snapshot[t]), rollback(n));
        if !ok { return; }
        left, n := left - {t}, n + 1;
      }
    }

    /** The single-tunnel loop: every running tunnel is taken down, or those already down are rewound. */
    method TakeAllDown(forward: Script, rollback: Script) returns (ok: bool, n: nat)
      modifies this
      ensures multipleTunnels == old(multipleTunnels)
      ensures ok ==> runningConfigs == map[] && interfaces == old(interfaces) - old(runningConfigs).Keys
      ensures ok <==> old(runningConfigs).Keys <= old(interfaces)
                      && forall k: nat :: k < |old(runningConfigs)| ==> forward(k)
      ensures ok ==> n == |old(runningConfigs)|
      ensures !ok && (forall n: nat :: rollback(n)) ==>
              runningConfigs == old(runningConfigs) && interfaces == old(interfaces)
      ensures old(Consistent()) ==> Consistent()
      ensures !ok ==> Within(old(runningConfigs), old(interfaces))
    {
      var snapshot := runningConfigs;
      var left := snapshot.Keys;
      n := 0;
      while left != {}
        invariant left <= snapshot.Keys && multipleTunnels == old(multipleTunnels)
        invariant snapshot.Keys - left <= old(interfaces) && n + |left| == |snapshot|
        invariant forall k: nat :: k < n ==> forward(k)
        invariant runningConfigs == snapshot - (snapshot.Keys - left)
                  && interfaces == old(interfaces) - (snapshot.Keys - left)
        decreases left
      {
        var t :| t in left;
        ok := TakeDown(t, Some(snapshot[t]), forward(n));
        if !ok {
          Rewind(snapshot, snapshot.Keys - left, rollback, old(interfaces));
          return;
        }
        left, n := left - {t}, n + 1;
      }
      ok := true;
    }

    /** The config a tunnel was last brought up with. */
    function Running(tunnel: Tunnel): Option<Config>
      reads this
    {
      if tunnel in runningConfigs then Some(runningConfigs[tunnel]) else None
    }

    /**
     setState.  The listing of interfaces may fail, and then every tunnel counts as down; threw stands for an
     exception; forward and rollback answer the external steps.
     */
    method SetState(tunnel: Tunnel, state: State, config: Option<Config>, listed: bool, tools: bool,
                    forward: Script, rollback: Script)
      returns (threw: bool, result: State)
      modifies this
      ensures multipleTunnels == old(multipleTunnels) && (old(Consistent()) ==> Consistent())
      // the state that is reached
      ensures state != TOGGLE && !threw ==> result == state
      ensures state == TOGGLE && !threw ==>
                result != TOGGLE && (result == DOWN <==> listed && tunnel in old(interfaces))
      ensures listed && !threw ==> (result == UP <==> tunnel in interfaces)
      ensures state == TOGGLE && listed && !threw ==> (tunnel in interfaces <==> tunnel !in old(interfaces))
      // nothing to do
      ensures state == DOWN && !(listed && tunnel in old(interfaces)) ==> !threw && unchanged(this)
      ensures state == UP && listed && tunnel in old(interfaces) ==>
                tunnel in old(runningConfigs) && config == Some(old(runningConfigs)[tunnel]) ==>
                !threw && unchanged(this)
      // down
      ensures (state == DOWN || state == TOGGLE) && listed && tunnel in old(interfaces) ==>
                && (threw <==> !(forward(0) && (config.Some? || tunnel in old(runningConfigs))))
                && if threw then unchanged(this)
                   else runningConfigs == old(runningConfigs) - {tunnel} && interfaces == old(interfaces) - {tunnel}
      // another config
      ensures state == UP && listed && tunnel in old(interfaces) ==>
                !(tunnel in old(runningConfigs) && config == Some(old(runningConfigs)[tunnel])) ==>
                && (threw <==> !(tools && config.Some? && forward(0) && forward(1)))
                && (!threw ==> runningConfigs == old(runningConfigs)[tunnel := config.value]
                               && interfaces == old(interfaces) && currentTunnel == Some(tunnel))
                && (threw && tunnel !in old(runningConfigs) ==>
                      && runningConfigs == old(runningConfigs)
                      && interfaces == if tools && config.Some? && forward(0) then old(interfaces) - {tunnel}
                                       else old(interfaces))
      // up from down
      ensures (state == UP || state == TOGGLE) && !(listed && tunnel in old(interfaces)) && multipleTunnels ==>
                && (threw <==> !(tools && config.Some? && forward(0) && tunnel !in old(interfaces)))
                && (!threw ==> runningConfigs == old(runningConfigs)[tunnel := config.value]
                               && interfaces == old(interfaces) + {tunnel} && currentTunnel == Some(tunnel))
      ensures (state == UP || state == TOGGLE) && !(listed && tunnel in old(interfaces)) && !multipleTunnels ==>
                && (threw <==> !(tools && config.Some? && old(runningConfigs).Keys <= old(interfaces)
                                 && tunnel !in old(interfaces) - old(runningConfigs).Keys
                                 && forall n: nat :: n <= |old(runningConfigs)| ==> forward(n)))
                && (!threw ==> runningConfigs == map[tunnel := config.value] && currentTunnel == Some(tunnel)
                               && interfaces == old(interfaces) - old(runningConfigs).Keys + {tunnel})
      // what an exception leaves
      ensures threw && (listed && tunnel in old(interfaces) ==> tunnel in old(runningConfigs)) ==>
                && Within(old(runningConfigs), old(interfaces))
                && ((forall n: nat :: rollback(n)) ==>
                      runningConfigs == old(runningConfigs) && interfaces == old(interfaces))
    {
      var up, original, target := listed && tunnel in interfaces, Running(tunnel), state;
      if target == TOGGLE {
        target := if up then DOWN else UP;
      }
      if (target == UP && up && original.Some? && original == config) || (target == DOWN && !up) {
        return false, if up then UP else DOWN;
      }
      if target == UP {
        if !tools { return true, target; }
        var ok;
        if up {
          ok := Replace(tunnel, config, original, if original.None? then config else original, forward, rollback);
        } else {
          ok := StartFromDown(tunnel, config, forward, rollback);
        }
        return !ok, target;
      }
      var ok := TakeDown(tunnel, if original.None? then config else original, forward(0));
      return !ok, target;
    }

    /** Down and up again with another config; the old one comes back if it is known. */
    method Replace(tunnel: Tunnel, config: Option<Config>, original: Option<Config>, toTakeDown: Option<Config>,
                   forward: Script, rollback: Script)
      returns (ok: bool)
      requires tunnel in interfaces && original == Running(tunnel)
      requires toTakeDown == if original.None? then config else original
      modifies this
      ensures multipleTunnels == old(multipleTunnels)
      ensures ok <==> config.Some? && forward(0) && forward(1)
      ensures ok ==> currentTunnel == Some(tunnel) && interfaces == old(interfaces)
                     && runningConfigs == old(runningConfigs)[tunnel := config.value]
      ensures old(Consistent()) ==> Consistent()
      ensures !ok && original.Some? ==> Within(old(runningConfigs), old(interfaces))
      ensures !ok && original.Some? && rollback(0) ==>
              runningConfigs == old(runningConfigs) && interfaces == old(interfaces)
      ensures !ok && original.None? ==> runningConfigs == old(runningConfigs)
      ensures !ok && original.None? ==>
              interfaces == if config.Some? && forward(0) then old(interfaces) - {tunnel} else old(interfaces)
    {
      ok := TakeDown(tunnel, toTakeDown, forward(0));
      if !ok { return; }
      ok := BringUp(tunnel, config, forward(1));
      if !ok && original.Some? {
        var _ := BringUp(tunnel, original, rollback(0));
      }
    }

    /** Up from down: in single-tunnel mode the others go down first and come back on failure. */
    method StartFromDown(tunnel: Tunnel, config: Option<Config>, forward: Script, rollback: Script) returns (ok: bool)
      modifies this
      ensures multipleTunnels == old(multipleTunnels)
      ensures multipleTunnels ==> (ok <==> config.Some? && forward(0) && tunnel !in old(interfaces))
      ensures !multipleTunnels ==>
                (ok <==>
                 && config.Some? && old(runningConfigs).Keys <= old(interfaces)
                 && tunnel !in old(interfaces) - old(runningConfigs).Keys
                 && forall n: nat :: n <= |old(runningConfigs)| ==> forward(n))
      ensures ok ==> currentTunnel == Some(tunnel)
      ensures ok && multipleTunnels ==> interfaces == old(interfaces) + {tunnel}
                                        && runningConfigs == old(runningConfigs)[tunnel := config.value]
      ensures ok && !multipleTunnels ==> interfaces == old(interfaces) - old(runningConfigs).Keys + {tunnel}
                                         && runningConfigs == map[tunnel := config.value]
      ensures !ok && (forall n: nat :: rollback(n)) ==>
              runningConfigs == old(runningConfigs) && interfaces == old(interfaces)
      ensures old(Consistent()) ==> Consistent()
      ensures !ok ==> Within(old(runningConfigs), old(interfaces))
    {
      var snapshot := runningConfigs;
      var n: nat := 0;
      ok := true;
      if !multipleTunnels {
        ok, n := TakeAllDown(forward, rollback);
        if !ok { return; }
      }
      ok := BringUp(tunnel, config, forward(n));
      if !ok && !multipleTunnels {
        assert snapshot - snapshot.Keys == map[];
        Rewind(snapshot, snapshot.Keys, rollback, old(interfaces));
      }
    }
  }
}
