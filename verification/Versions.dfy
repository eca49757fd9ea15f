/** Engine and protocol versions by network and time (src/version/version.rs). */
module Versions {
  import opened Basics

  datatype Network = Unspecified | Mainnet | Testnet | Devnet

  datatype EngineVersion = V0 | V1 | V2 | V3 | V4 | V5

  datatype Scheduled = Scheduled(activeAt: nat, version: EngineVersion)

  const FARCASTER_EPOCH_SECONDS: nat := 1609459200

  const LATEST_PROTOCOL_VERSION: nat := 2

  /** The number of the network in block headers. */
  function ChainId(network: Network): int
  {
    match network
    case Unspecified => 0
    case Mainnet => 1
    case Testnet => 2
    case Devnet => 3
  }

  function NetworkOf(chainId: int): (r: Option<Network>)
    ensures forall n: Network :: ChainId(n) == chainId <==> r == Some(n)
  {
    if chainId == 0 then Some(Unspecified)
    else if chainId == 1 then Some(Mainnet)
    else if chainId == 2 then Some(Testnet)
    else if chainId == 3 then Some(Devnet)
    else None
  }

  function Schedule(network: Network): seq<Scheduled>
  {
    match network
    case Mainnet => [
      Scheduled(0, V0), Scheduled(1747333800, V1), Scheduled(1747352400, V2),
      Scheduled(1747356000, V3), Scheduled(1747417200, V4), Scheduled(1750093200, V5)]
    case Testnet => [Scheduled(0, V0), Scheduled(1748970000, V5)]
    case _ => [Scheduled(0, V5)]
  }

  /** The last entry of the schedule active at a Unix time. */
  function LastActive(schedule: seq<Scheduled>, unix: nat): Option<EngineVersion>
  {
    if schedule == [] then None
    else
      var last := schedule[|schedule| - 1];
      if last.activeAt <= unix then Some(last.version) else LastActive(schedule[..|schedule| - 1], unix)
  }

  /** The version chosen is that of the last entry active at the time: filter, then last. */
  lemma {:induction false} LastActiveIs(schedule: seq<Scheduled>, unix: nat, i: nat)
    requires i < |schedule| && schedule[i].activeAt <= unix
    requires forall j :: i < j < |schedule| ==> schedule[j].activeAt > unix
    ensures LastActive(schedule, unix) == Some(schedule[i].version)
  {
    if i < |schedule| - 1 {
      LastActiveIs(schedule[..|schedule| - 1], unix, i);
    }
  }

  lemma {:induction false} FirstEntryAlwaysApplies(schedule: seq<Scheduled>, unix: nat)
    requires schedule != [] && schedule[0].activeAt == 0
    ensures LastActive(schedule, unix).Some?
  {
    if |schedule| > 1 {
      FirstEntryAlwaysApplies(schedule[..|schedule| - 1], unix);
    }
  }

  /** The version in force at a time; every schedule starts at time zero, so there always is one. */
  function VersionFor(time: nat, network: Network): EngineVersion
  {
    FirstEntryAlwaysApplies(Schedule(network), time + FARCASTER_EPOCH_SECONDS);
    LastActive(Schedule(network), time + FARCASTER_EPOCH_SECONDS).value
  }

  function ProtocolVersion(v: EngineVersion): nat
  {
    if v == V5 then LATEST_PROTOCOL_VERSION else 1
  }

  /** The username routing fix is on from V5. */
  predicate RoutesUsernames(v: EngineVersion)
  {
    v == V5
  }

  ghost predicate VersionsGrow(schedule: seq<Scheduled>)
  {
    forall i, j :: 0 <= i < j < |schedule| ==>
      schedule[i].activeAt < schedule[j].activeAt
      && ProtocolVersion(schedule[i].version) <= ProtocolVersion(schedule[j].version)
  }

  lemma {:induction false} LaterIsNoOlder(schedule: seq<Scheduled>, t1: nat, t2: nat)
    requires VersionsGrow(schedule) && t1 <= t2 && LastActive(schedule, t1).Some?
    ensures LastActive(schedule, t2).Some?
    ensures exists i :: 0 <= i < |schedule| && LastActive(schedule, t1).value == schedule[i].version
    ensures ProtocolVersion(LastActive(schedule, t1).value) <= ProtocolVersion(LastActive(schedule, t2).value)
  {
    var init, last := schedule[..|schedule| - 1], schedule[|schedule| - 1];
    if last.activeAt > t1 {
      LaterIsNoOlder(init, t1, t2);
      var i :| 0 <= i < |init| && LastActive(init, t1).value == init[i].version;
      assert schedule[i] == init[i];
    }
  }

  /** On every network the protocol version never goes back as time passes. */
  lemma ProtocolVersionIsMonotone(network: Network, t1: nat, t2: nat)
    requires t1 <= t2
    ensures ProtocolVersion(VersionFor(t1, network)) <= ProtocolVersion(VersionFor(t2, network))
  {
    FirstEntryAlwaysApplies(Schedule(network), t1 + FARCASTER_EPOCH_SECONDS);
    LaterIsNoOlder(Schedule(network), t1 + FARCASTER_EPOCH_SECONDS, t2 + FARCASTER_EPOCH_SECONDS);
  }

  /** The Farcaster time from which a network runs protocol version 2 and routes usernames. */
  function SwitchTime(network: Network): nat
  {
    match network
    case Mainnet => 140634000
    case Testnet => 139510800
    case _ => 0
  }

  /** Before its switch a network runs protocol version 1 without username routing, from then on version 2 with it. */
  lemma VersionsSwitchOnce(network: Network, time: nat)
    ensures ProtocolVersion(VersionFor(time, network)) == (if time >= SwitchTime(network) then 2 else 1)
    ensures RoutesUsernames(VersionFor(time, network)) <==> time >= SwitchTime(network)
  {
    var schedule, unix := Schedule(network), time + FARCASTER_EPOCH_SECONDS;
    var last := |schedule| - 1;
    if time >= SwitchTime(network) {
      LastActiveIs(schedule, unix, last);
    } else {
      FirstEntryAlwaysApplies(schedule[..last], unix);
      EarlierIsOlder(schedule[..last], unix);
    }
  }

  lemma {:induction false} EarlierIsOlder(schedule: seq<Scheduled>, unix: nat)
    requires LastActive(schedule, unix).Some?
    requires forall i :: 0 <= i < |schedule| ==> schedule[i].version != V5
    ensures LastActive(schedule, unix).value != V5
  {
    if schedule[|schedule| - 1].activeAt > unix {
      EarlierIsOlder(schedule[..|schedule| - 1], unix);
    }
  }
}
