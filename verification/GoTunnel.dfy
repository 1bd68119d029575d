/** GoBackend and the handle table of libwg-go: one tunnel at a time, through calls that may fail at any step. */
module GoTunnel {
  import opened Tunnels
  import opened Wrappers

  const MAX_INT32: int := 0x7fff_ffff

  /** The global tunnelHandles map of api-android.go. */
  class HandleTable<Device> {
    var handles: map<int, Device>

    constructor ()
      ensures handles == map[]
    {
      handles := map[];
    }

    /** awgTurnOn: started says whether the device came up; the smallest free handle, or -1. */
    method TurnOn(device: Device, started: bool) returns (handle: int)
      modifies this
      ensures -1 <= handle < MAX_INT32
      ensures handle == -1 ==> unchanged(this)
      ensures handle >= 0 ==> started && handle !in old(handles) && handles == old(handles)[handle := device]
      ensures handle >= 0 ==> forall i :: 0 <= i < handle ==> i in old(handles)
      ensures handle == -1 && started ==> forall i :: 0 <= i < MAX_INT32 ==> i in handles
    {
      if !started { return -1; }
      var i := 0;
      while i < MAX_INT32 && i in handles
        invariant 0 <= i <= MAX_INT32 && forall j :: 0 <= j < i ==> j in handles
        decreases MAX_INT32 - i
      {
        i := i + 1;
      }
      if i == MAX_INT32 { return -1; }
      handles := handles[i := device];
      return i;
    }

    /** awgTurnOff: an unknown handle is ignored. */
    method TurnOff(handle: int)
      modifies this
      ensures handles == old(handles) - {handle}
    {
      if handle !in handles { return; }
      handles := handles - {handle};
    }
  }

  /** What the external steps of one attempt to come up answer. */
  datatype Attempt = Attempt(prepared: bool, serviceStarted: bool, resolved: bool, established: bool, started: bool)

  /** One public call, or the destruction of the service by the system. */
  datatype Event<Tunnel, Config> =
    | SetState(tunnel: Tunnel, state: State, config: Option<Config>, up: Attempt, restore: Attempt)
    | Destroy(owned: bool)

  /** The tunnel that is up and its config. */
  type Current<Tunnel, Config> = Option<(Tunnel, Config)>

  predicate Works(attempt: Attempt)
  {
    attempt.prepared && attempt.serviceStarted && attempt.resolved && attempt.established && attempt.started
  }

  /** What a call makes of the tunnel that is up, without handles and reports. */
  function Effect<Tunnel(==), Config(==)>(c: Current<Tunnel, Config>, e: Event<Tunnel, Config>): Current<Tunnel, Config>
  {
    match e
    case Destroy(owned) => if owned then None else c
    case SetState(tunnel, state, config, up, restore) =>
      var mine := c.Some? && c.value.0 == tunnel;
      if state == DOWN || (state == TOGGLE && mine) then if mine then None else c
      else if mine && config == Some(c.value.1) then c
      else if config.Some? && Works(up) then Some((tunnel, config.value))
      else if Works(restore) then c
      else None
  }

  function Effects<Tunnel(==), Config(==)>(c: Current<Tunnel, Config>, events: seq<Event<Tunnel, Config>>)
    : Current<Tunnel, Config>
  {
    if events == [] then c else Effect(Effects(c, events[..|events| - 1]), events[|events| - 1])
  }

  class Backend<Tunnel(==), Config(==)> {
    const table: HandleTable<Tunnel>
    var currentTunnel: Option<Tunnel>
    var currentConfig: Option<Config>
    var currentTunnelHandle: int
    var reported: map<Tunnel, State>

    /** Tunnel, config and handle are set or unset together, and the table holds exactly the handle in use. */
    ghost predicate Valid()
      reads this, table
    {
      && (currentTunnel.Some? <==> currentConfig.Some?) && (currentTunnel.Some? <==> currentTunnelHandle != -1)
      && table.handles == (if currentTunnel.Some? then map[0 := currentTunnel.value] else map[])
      && (currentTunnel.Some? ==> currentTunnelHandle == 0)
      && (currentTunnel.Some? ==> currentTunnel.value in reported)
      && forall t | t in reported :: reported[t] == StateOf(t)
    }

    /** The tunnel that is up, as the fields hold it. */
    ghost function Up(): Current<Tunnel, Config>
      reads this
    {
      if currentTunnel.Some? && currentConfig.Some? then Some((currentTunnel.value, currentConfig.value)) else None
    }

    /** getState */
    function StateOf(tunnel: Tunnel): State
      reads this
    {
      if currentTunnel == Some(tunnel) then UP else DOWN
    }

    constructor ()
      ensures Valid() && fresh(table) && currentTunnel == None && reported == map[]
    {
      table := new HandleTable();
      currentTunnel, currentConfig, currentTunnelHandle, reported := None, None, -1, map[];
    }

    /** setStateInternal(tunnel, config, UP) */
    method BringUp(tunnel: Tunnel, config: Option<Config>, attempt: Attempt) returns (ok: bool)
      requires Valid() && currentTunnel == None
      modifies this, table
      ensures Valid()
      ensures ok <==> config.Some? && Works(attempt)
      ensures ok ==> currentTunnel == Some(tunnel) && currentConfig == config && reported == old(reported)[tunnel := UP]
      ensures !ok ==> currentTunnel == None && reported == old(reported)
    {
      if config.None? { return false; }
      if !attempt.prepared || !attempt.serviceStarted { return false; }
      if currentTunnelHandle != -1 { return true; }
      if !attempt.resolved || !attempt.established { return false; }
      ghost var empty := table.handles;
      currentTunnelHandle := table.TurnOn(tunnel, attempt.started);
      assert 0 !in empty;
      if currentTunnelHandle < 0 {
        return false;
      }
      currentTunnel, currentConfig := Some(tunnel), config;
      reported := reported[tunnel := UP];
      ok := true;
    }

    /** setStateInternal(tunnel, null, DOWN) */
    method TakeDown(tunnel: Tunnel)
      requires Valid() && currentTunnel == Some(tunnel)
      modifies this, table
      ensures Valid() && currentTunnel == None && reported == old(reported)[tunnel := DOWN]
    {
      if currentTunnelHandle == -1 { return; }
      var handleToClose := currentTunnelHandle;
      currentTunnel, currentTunnelHandle, currentConfig := None, -1, None;
      table.TurnOff(handleToClose);
      reported := reported[tunnel := DOWN];
    }

    /** The other tunnel goes down, this one comes up, and on failure the other one comes back. */
    method Switch(tunnel: Tunnel, config: Option<Config>, up: Attempt, restore: Attempt) returns (ok: bool)
      requires Valid()
      modifies this, table
      ensures Valid() && (ok <==> config.Some? && Works(up))
      ensures Up() == if ok then Some((tunnel, config.value)) else if Works(restore) then old(Up()) else None
    {
      var originalTunnel, originalConfig := currentTunnel, currentConfig;
      if currentTunnel.Some? {
        TakeDown(currentTunnel.value);
      }
      ok := BringUp(tunnel, config, up);
      if !ok && originalTunnel.Some? {
        var _ := BringUp(originalTunnel.value, originalConfig, restore);
      }
    }

    /** setState; threw stands for an exception. */
    method SetState(tunnel: Tunnel, state: State, config: Option<Config>, up: Attempt, restore: Attempt)
      returns (threw: bool, result: State)
      requires Valid()
      modifies this, table
      ensures Valid()
      ensures Up() == Effect(old(Up()), Event.SetState(tunnel, state, config, up, restore))
      ensures !threw ==> result != TOGGLE && (result == UP <==> currentTunnel == Some(tunnel))
      ensures !threw && state != TOGGLE ==> result == state
      ensures !threw && state == TOGGLE ==> (result == UP <==> old(currentTunnel) != Some(tunnel))
      ensures threw ==> state != DOWN && !(config.Some? && Works(up))
      ensures threw ==> if Works(restore) then Up() == old(Up()) else Up() == None
    {
      var original, target := StateOf(tunnel), state;
      if target == TOGGLE {
        target := if original == UP then DOWN else UP;
      }
      if target == original && currentTunnel == Some(tunnel) && config == currentConfig {
        return false, original;
      }
      if target == UP {
        var ok := Switch(tunnel, config, up, restore);
        if !ok { return true, target; }
      } else if currentTunnel == Some(tunnel) {
        TakeDown(tunnel);
      }
      return false, StateOf(tunnel);
    }

    /** VpnService.onDestroy; a service that was never used has no owner. */
    method OnDestroy(owned: bool)
      requires Valid()
      modifies this, table
      ensures Valid()
      ensures Up() == if owned then None else old(Up())
    {
      if owned {
        if currentTunnel.Some? {
          var tunnel := currentTunnel.value;
          if currentTunnelHandle != -1 {
            table.TurnOff(currentTunnelHandle);
          }
          currentTunnel, currentTunnelHandle, currentConfig := None, -1, None;
          reported := reported[tunnel := DOWN];
        }
      }
    }

    /**
     Every sequence of calls keeps the table, the fields and the reported states in step, and leaves up the
     tunnel that the calls leave up without them.
     */
    method Run(events: seq<Event<Tunnel, Config>>)
      requires Valid()
      modifies this, table
      ensures Valid() && Up() == Effects(old(Up()), events)
    {
      for i := 0 to |events|
        invariant Valid() && Up() == Effects(old(Up()), events[..i])
      {
        assert events[..i + 1][..i] == events[..i];
        match events[i] {
          case SetState(tunnel, state, config, up, restore) =>
            var _, _ := SetState(tunnel, state, config, up, restore);
          case Destroy(owned) =>
            OnDestroy(owned);
        }
      }
      assert events[..|events|] == events;
    }
  }
}
