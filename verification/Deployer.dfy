/** Deploying services as containers of one shared daemon (deployer/docker.go). */
module Deployer {
  import opened Prelude

  datatype Container = Container(id: nat, names: seq<string>)

  predicate HasPrefix(s: string, prefix: string) {
    |prefix| <= |s| && s[..|prefix|] == prefix
  }

  /** Some name of the container, without its leading slash, begins with the service's name. */
  predicate Matches(c: Container, service: string) {
    exists i :: 0 <= i < |c.names| && c.names[i] != "" && HasPrefix(c.names[i][1..], service)
  }

  function Services(containers: seq<Container>, service: string): seq<Container> {
    Filter(containers, (c: Container) => Matches(c, service))
  }

  /** Containers that do not answer to the service. */
  function Others(containers: seq<Container>, service: string): seq<Container> {
    Filter(containers, (c: Container) => !Matches(c, service))
  }

  function InstanceName(service: string, uuid: string): string {
    service + "." + uuid
  }

  ghost predicate UniqueIds(containers: seq<Container>) {
    forall i, j :: 0 <= i < j < |containers| ==> containers[i].id != containers[j].id
  }

  // ----- Services that share a daemon -----------------------------------------------------------

  /** Neither name extends the other, and no container answers to both. */
  ghost predicate Apart(containers: seq<Container>, a: string, b: string) {
    && !HasPrefix(a, b) && !HasPrefix(b, a)
    && forall c :: c in containers ==> !(Matches(c, a) && Matches(c, b))
  }

  /**
   * Containers that do not answer to `service` stay as they are, no service apart from it gains, loses
   * or shares a container, and two such do not become entangled.
   */
  ghost predicate Undisturbed(before: seq<Container>, after: seq<Container>, service: string) {
    && Others(after, service) == Others(before, service)
    && (forall other :: Apart(before, service, other)
          ==> Apart(after, service, other) && Services(after, other) == Services(before, other))
    && (forall a, b :: Apart(before, service, a) && Apart(before, service, b) && Apart(before, a, b)
          ==> Apart(after, a, b))
  }

  lemma {:induction false} UndisturbedByNothing(containers: seq<Container>, service: string)
    ensures Undisturbed(containers, containers, service)
  {
  }

  lemma {:induction false} UndisturbedComposes(a: seq<Container>, b: seq<Container>, c: seq<Container>, service: string)
    requires Undisturbed(a, b, service) && Undisturbed(b, c, service)
    ensures Undisturbed(a, c, service)
  {
    hide Apart, Services, Others;
  }

  /** Character `i` of a random (version 4) uuid in its text form. */
  predicate UuidChar(i: nat, c: char) {
    if i == 8 || i == 13 || i == 18 || i == 23 then c == '-'
    else if i == 14 then c == '4'
    else if i == 19 then c == '8' || c == '9' || c == 'a' || c == 'b'
    else '0' <= c <= '9' || 'a' <= c <= 'f'
  }

  predicate StartsUuid(s: string) {
    |s| <= 36 && forall i :: 0 <= i < |s| ==> UuidChar(i, s[i])
  }

  predicate IsUuid(s: string) {
    |s| == 36 && StartsUuid(s)
  }

  function CompleteUuid(start: string): (uuid: string)
    requires StartsUuid(start)
    ensures IsUuid(uuid) && HasPrefix(uuid, start)
  {
    var uuid := seq(36, i requires 0 <= i < 36 =>
      if i < |start| then start[i]
      else if i == 8 || i == 13 || i == 18 || i == 23 then '-'
      else if i == 14 then '4'
      else if i == 19 then '8'
      else '0');
    assert uuid[..|start|] == start;
    uuid
  }

  /** An instance of one service can be counted as another's exactly when one name runs into the other. */
  lemma {:induction false} ConfusedIff(service: string, other: string)
    ensures (exists uuid :: IsUuid(uuid) && HasPrefix(InstanceName(service, uuid), other))
            <==> || HasPrefix(service, other)
                 || (HasPrefix(other, service + ".") && StartsUuid(other[|service| + 1..]))
  {
    forall uuid | IsUuid(uuid)
      ensures HasPrefix(InstanceName(service, uuid), other)
              ==> HasPrefix(service, other) || (HasPrefix(other, service + ".") && StartsUuid(other[|service| + 1..]))
    {
      if HasPrefix(InstanceName(service, uuid), other) {
        ConfusionHasCause(service, uuid, other);
      }
    }
    if HasPrefix(service, other) {
      var uuid := CompleteUuid("");
      assert InstanceName(service, uuid)[..|other|] == service[..|other|];
      assert IsUuid(uuid) && HasPrefix(InstanceName(service, uuid), other);
    } else if HasPrefix(other, service + ".") && StartsUuid(other[|service| + 1..]) {
      var start := other[|service| + 1..];
      var uuid := CompleteUuid(start);
      assert other == InstanceName(service, start);
      assert InstanceName(service, uuid)[..|other|] == InstanceName(service, uuid[..|start|]);
      assert IsUuid(uuid) && HasPrefix(InstanceName(service, uuid), other);
    }
  }

  lemma {:induction false} ConfusionHasCause(service: string, uuid: string, other: string)
    requires HasPrefix(InstanceName(service, uuid), other)
    ensures HasPrefix(service, other) || HasPrefix(other, service + ".")
    ensures IsUuid(uuid) && !HasPrefix(service, other) ==> StartsUuid(other[|service| + 1..])
  {
    var name := InstanceName(service, uuid);
    if |other| > |service| {
      assert other[..|service| + 1] == name[..|service| + 1] == service + ".";
      assert other[|service| + 1..] == uuid[..|other| - |service| - 1];
    } else {
      assert name[..|other|] == service[..|other|];
    }
  }

  lemma {:induction false} PrefixStartsAlike(s: string, prefix: string)
    ensures HasPrefix(s, prefix) && prefix != "" ==> s != "" && s[0] == prefix[0]
  {
  }

  lemma {:induction false} ShorterPrefix(s: string, prefix: string, more: string)
    ensures HasPrefix(s, prefix + more) ==> HasPrefix(s, prefix)
  {
    if HasPrefix(s, prefix + more) {
      assert s[..|prefix|] == s[..|prefix + more|][..|prefix|];
    }
  }

  const MANAGED := ["collector", "health-checker", "executor"]

  /** The names the manager deploys under do not run into each other. */
  lemma {:induction false} ManagedNamesAreApart()
    ensures forall a, b :: a in MANAGED && b in MANAGED && a != b ==> Apart([], a, b)
  {
    assert "collector"[0] == 'c' && "health-checker"[0] == 'h' && "executor"[0] == 'e';
    hide HasPrefix;
    forall a: string, b: string | a != "" && b != "" && a[0] != b[0]
      ensures Apart([], a, b)
    {
      PrefixStartsAlike(a, b);
      PrefixStartsAlike(b, a);
    }
  }

  /** The containers of a service keep the order of the list, so the first of them is the first listed. */
  lemma {:induction false} ServicesInOrder(containers: seq<Container>, service: string, i: nat, j: nat)
    requires i < j < |Services(containers, service)|
    ensures exists x, y :: 0 <= x < y < |containers| && containers[x] == Services(containers, service)[i]
                           && containers[y] == Services(containers, service)[j]
  {
    var x, y := FilterKeepsOrder(containers, (c: Container) => Matches(c, service), i, j);
  }

  // ----- Creating and removing ------------------------------------------------------------------

  lemma {:induction false} ServicesAppend(a: seq<Container>, b: seq<Container>, service: string)
    ensures Services(a + b, service) == Services(a, service) + Services(b, service)
  {
    FilterAppend(a, b, (c: Container) => Matches(c, service));
  }

  lemma {:induction false} OthersAppend(a: seq<Container>, b: seq<Container>, service: string)
    ensures Others(a + b, service) == Others(a, service) + Others(b, service)
  {
    FilterAppend(a, b, (c: Container) => !Matches(c, service));
  }

  lemma {:induction false} OneContainer(c: Container, service: string)
    ensures Services([c], service) == if Matches(c, service) then [c] else []
    ensures Others([c], service) == if Matches(c, service) then [] else [c]
  {
    assert [c][..0] == [];
    assert Services([], service) == Others([], service) == [];
  }

  lemma {:induction false} InsertedServices(a: seq<Container>, c: Container, b: seq<Container>, service: string)
    ensures Services(a + [c] + b, service)
            == Services(a, service) + (if Matches(c, service) then [c] else []) + Services(b, service)
    ensures Services(a + b, service) == Services(a, service) + Services(b, service)
    ensures Matches(c, service) ==> Others(a + [c] + b, service) == Others(a + b, service)
  {
    ServicesAppend(a + [c], b, service);
    ServicesAppend(a, [c], service);
    ServicesAppend(a, b, service);
    OthersAppend(a + [c], b, service);
    OthersAppend(a, [c], service);
    OthersAppend(a, b, service);
    OneContainer(c, service);
    hide Services, Others;
  }

  lemma {:induction false} InstanceMatches(id: nat, service: string, uuid: string, other: string)
    ensures Matches(Container(id, ["/" + InstanceName(service, uuid)]), other)
            <==> HasPrefix(InstanceName(service, uuid), other)
  {
    var names := ["/" + InstanceName(service, uuid)];
    hide HasPrefix;
    assert names[0][1..] == InstanceName(service, uuid);
  }

  lemma {:induction false} InstanceIsOwnService(id: nat, service: string, uuid: string)
    ensures Matches(Container(id, ["/" + InstanceName(service, uuid)]), service)
    ensures forall other :: !HasPrefix(service, other) && !HasPrefix(other, service)
              ==> !Matches(Container(id, ["/" + InstanceName(service, uuid)]), other)
  {
    InstanceMatches(id, service, uuid, service);
    assert InstanceName(service, uuid)[..|service|] == service;
    forall other | !HasPrefix(service, other) && !HasPrefix(other, service)
      ensures !Matches(Container(id, ["/" + InstanceName(service, uuid)]), other)
    {
      InstanceMatches(id, service, uuid, other);
      if HasPrefix(InstanceName(service, uuid), other) {
        ConfusionHasCause(service, uuid, other);
        ShorterPrefix(other, service, ".");
      }
    }
  }

  /** `c` was put somewhere into the list. */
  ghost predicate Inserted(before: seq<Container>, after: seq<Container>, c: Container) {
    exists at :: 0 <= at <= |before| && after == before[..at] + [c] + before[at..]
  }

  /** One container came to the list, named after the service and a uuid. */
  ghost predicate NewInstance(before: seq<Container>, after: seq<Container>, service: string) {
    exists id, uuid :: IsUuid(uuid) && Inserted(before, after, Container(id, ["/" + service + "." + uuid]))
  }

  lemma {:induction false} InstanceIsNew(
      before: seq<Container>, after: seq<Container>, id: nat, service: string, uuid: string)
    requires IsUuid(uuid) && Inserted(before, after, Container(id, ["/" + InstanceName(service, uuid)]))
    ensures NewInstance(before, after, service)
  {
    hide IsUuid, Inserted;
    assert "/" + InstanceName(service, uuid) == "/" + service + "." + uuid;
  }

  lemma {:induction false} CreatedServices(
      before: seq<Container>, after: seq<Container>, id: nat, service: string, uuid: string)
    requires Inserted(before, after, Container(id, ["/" + InstanceName(service, uuid)]))
    ensures |Services(after, service)| == |Services(before, service)| + 1
    ensures Undisturbed(before, after, service)
  {
    hide Matches, Services, Others, HasPrefix;
    var c := Container(id, ["/" + InstanceName(service, uuid)]);
    InstanceIsOwnService(id, service, uuid);
    var at :| 0 <= at <= |before| && after == before[..at] + [c] + before[at..];
    var a, b := before[..at], before[at..];
    assert a + b == before;
    InsertedServices(a, c, b, service);
    forall other | Apart(before, service, other)
      ensures Apart(after, service, other) && Services(after, other) == Services(before, other)
    {
      InsertedServices(a, c, b, other);
    }
  }

  function Without(containers: seq<Container>, id: nat): seq<Container> {
    Filter(containers, (c: Container) => c.id != id)
  }

  lemma {:induction false} WithoutCommutes(containers: seq<Container>, id: nat, keep: Container -> bool)
    ensures Filter(Without(containers, id), keep) == Without(Filter(containers, keep), id)
  {
    if containers != [] {
      var front, last := containers[..|containers| - 1], containers[|containers| - 1];
      WithoutCommutes(front, id, keep);
      if last.id != id {
        assert (Without(front, id) + [last])[..|Without(front, id)|] == Without(front, id);
      }
      if keep(last) {
        assert (Filter(front, keep) + [last])[..|Filter(front, keep)|] == Filter(front, keep);
      }
    }
  }

  lemma {:induction false} WithoutAbsent(containers: seq<Container>, id: nat)
    requires forall c :: c in containers ==> c.id != id
    ensures Without(containers, id) == containers
  {
    if containers != [] {
      var k := |containers| - 1;
      WithoutAbsent(containers[..k], id);
      assert containers == containers[..k] + [containers[k]];
    }
  }

  lemma {:induction false} WithoutFirst(containers: seq<Container>)
    requires containers != [] && UniqueIds(containers)
    ensures Without(containers, containers[0].id) == containers[1..]
  {
    var k := |containers| - 1;
    if k == 0 {
      assert containers[..k] == [] && Without([], containers[0].id) == [];
    } else {
      WithoutFirst(containers[..k]);
      assert containers[1..] == containers[..k][1..] + [containers[k]];
    }
  }

  lemma {:induction false} FilterKeepsUniqueIds(containers: seq<Container>, keep: Container -> bool)
    requires UniqueIds(containers)
    ensures UniqueIds(Filter(containers, keep))
  {
    if containers != [] {
      var k := |containers| - 1;
      FilterKeepsUniqueIds(containers[..k], keep);
      assert forall c :: c in containers[..k] ==> c.id != containers[k].id;
    }
  }

  lemma {:induction false} IdsIdentify(containers: seq<Container>, c: Container, d: Container)
    requires UniqueIds(containers) && c in containers && d in containers && c.id == d.id
    ensures c == d
  {
  }

  lemma {:induction false} RemovedFrom(containers: seq<Container>, mine: Container, keep: Container -> bool)
    requires UniqueIds(containers) && mine in containers && !keep(mine)
    ensures Filter(Without(containers, mine.id), keep) == Filter(containers, keep)
  {
    WithoutCommutes(containers, mine.id, keep);
    forall c | c in Filter(containers, keep)
      ensures c.id != mine.id
    {
      if c.id == mine.id {
        IdsIdentify(containers, c, mine);
      }
    }
    WithoutAbsent(Filter(containers, keep), mine.id);
  }

  lemma {:induction false} RemovedFromOther(containers: seq<Container>, mine: Container, other: string)
    requires UniqueIds(containers) && mine in containers
    ensures !Matches(mine, other) ==> Services(Without(containers, mine.id), other) == Services(containers, other)
    ensures Matches(mine, other) ==> Others(Without(containers, mine.id), other) == Others(containers, other)
  {
    hide Matches;
    if Matches(mine, other) {
      RemovedFrom(containers, mine, (c: Container) => !Matches(c, other));
    } else {
      RemovedFrom(containers, mine, (c: Container) => Matches(c, other));
    }
  }

  lemma {:induction false} RemovalDisturbsNone(containers: seq<Container>, mine: Container, service: string)
    requires UniqueIds(containers) && mine in containers && Matches(mine, service)
    ensures Undisturbed(containers, Without(containers, mine.id), service)
  {
    var after := Without(containers, mine.id);
    assert forall c :: c in after ==> c in containers;
    hide Matches, Services, Others, Without, UniqueIds, HasPrefix;
    RemovedFromOther(containers, mine, service);
    forall other | Apart(containers, service, other)
      ensures Services(after, other) == Services(containers, other)
    {
      RemovedFromOther(containers, mine, other);
    }
  }

  lemma {:induction false} RemovedServices(containers: seq<Container>, service: string)
    requires UniqueIds(containers) && Services(containers, service) != []
    ensures var id := Services(containers, service)[0].id;
            && Services(Without(containers, id), service) == Services(containers, service)[1..]
            && Undisturbed(containers, Without(containers, id), service)
  {
    hide Undisturbed, Without, Matches;
    var services := Services(containers, service);
    assert services[0] in services;
    RemovalDisturbsNone(containers, services[0], service);
    FilterKeepsUniqueIds(containers, (c: Container) => Matches(c, service));
    WithoutFirst(services);
    WithoutCommutes(containers, services[0].id, (c: Container) => Matches(c, service));
  }

  lemma {:induction false} ExitedServices(containers: seq<Container>, c: Container, service: string)
    requires UniqueIds(containers) && c in Services(containers, service)
    ensures |Services(Without(containers, c.id), service)| == |Services(containers, service)| - 1
  {
    FilterKeepsUniqueIds(containers, (c: Container) => Matches(c, service));
    WithoutCommutes(containers, c.id, (c: Container) => Matches(c, service));
    WithoutOne(Services(containers, service), c);
  }

  lemma {:induction false} WithoutOne(containers: seq<Container>, c: Container)
    requires UniqueIds(containers) && c in containers
    ensures |Without(containers, c.id)| == |containers| - 1
  {
    var front, last := containers[..|containers| - 1], containers[|containers| - 1];
    assert containers == front + [last];
    if c == last {
      WithoutAbsent(front, c.id);
    } else {
      assert c in front;
      WithoutOne(front, c);
      IdsIdentify(containers, c, if last.id == c.id then last else c);
    }
  }

  // ----- The daemon and the deployer ------------------------------------------------------------

  /**
   * The container daemon. Its list comes in an order of its own choosing. While `listing` is off it fails
   * to list, and once `changes` more creations, starts and removals are done it fails those.
   */
  class Daemon {
    var containers: seq<Container>
    var nextId: nat
    var listing: bool
    var changes: nat

    constructor (listing: bool, changes: nat)
      ensures Valid() && containers == [] && this.listing == listing && this.changes == changes
    {
      containers, nextId := [], 0;
      this.listing, this.changes := listing, changes;
    }

    ghost predicate Valid()
      reads this
    {
      UniqueIds(containers) && forall c :: c in containers ==> c.id < nextId
    }

    method ContainerCreate(name: string) returns (id: Option<nat>)
      requires Valid()
      modifies this
      ensures Valid() && listing == old(listing)
      ensures if old(changes) == 0 then id.None? && changes == 0 && containers == old(containers)
              else id.Some? && changes == old(changes) - 1
                   && Inserted(old(containers), containers, Container(id.value, ["/" + name]))
    {
      if changes == 0 {
        return None;
      }
      var at :| 0 <= at <= |containers|;
      id, changes := Some(nextId), changes - 1;
      containers, nextId := containers[..at] + [Container(nextId, ["/" + name])] + containers[at..], nextId + 1;
    }

    /** A container that fails to start stays in the list of all containers. */
    method ContainerStart(id: nat) returns (ok: bool)
      requires Valid()
      modifies this
      ensures Valid() && listing == old(listing) && containers == old(containers)
      ensures ok == (old(changes) > 0) && changes == if ok then old(changes) - 1 else 0
    {
      ok := changes > 0;
      changes := if ok then changes - 1 else 0;
    }

    method ContainerRemove(id: nat) returns (ok: bool)
      requires Valid()
      modifies this
      ensures Valid() && listing == old(listing)
      ensures ok == (old(changes) > 0) && changes == if ok then old(changes) - 1 else 0
      ensures containers == if ok then Without(old(containers), id) else old(containers)
    {
      ok := changes > 0;
      if ok {
        FilterKeepsUniqueIds(containers, (c: Container) => c.id != id);
        containers, changes := Without(containers, id), changes - 1;
      }
    }

    /** Containers are created with AutoRemove: one that exits leaves the list. */
    method ContainerExits(id: nat)
      requires Valid()
      modifies this
      ensures Valid() && listing == old(listing) && changes == old(changes)
      ensures containers == Without(old(containers), id)
    {
      FilterKeepsUniqueIds(containers, (c: Container) => c.id != id);
      containers := Without(containers, id);
    }
  }

  function Min(a: nat, b: nat): nat { if a < b then a else b }

  class Docker {
    const service: string
    const daemon: Daemon
    var requestedServiceCount: int

    constructor (service: string, daemon: Daemon)
      ensures this.service == service && this.daemon == daemon && requestedServiceCount == 0
    {
      this.service, this.daemon, requestedServiceCount := service, daemon, 0;
    }

    /** How many containers of the service there are, whether or not the daemon says so. */
    function Running(): nat
      reads daemon
    {
      |Services(daemon.containers, service)|
    }

    function Count(): Option<nat>
      reads daemon
    {
      if daemon.listing then Some(Running()) else None
    }

    predicate IsDeploying()
      reads this, daemon
    {
      Count().Some? && Count().value != requestedServiceCount
    }

    /** What is requested goes up before the daemon is asked, and stays up if it refuses. */
    method Increase() returns (ok: bool)
      requires daemon.Valid()
      modifies this, daemon
      ensures daemon.Valid() && daemon.listing == old(daemon.listing)
      ensures ok == (!old(IsDeploying()) && old(daemon.changes) > 1)
      ensures requestedServiceCount == old(requestedServiceCount) + (if old(IsDeploying()) then 0 else 1)
      ensures Running() == old(Running()) + (if old(IsDeploying()) || old(daemon.changes) == 0 then 0 else 1)
      ensures Running() > old(Running()) ==> NewInstance(old(daemon.containers), daemon.containers, service)
      ensures Undisturbed(old(daemon.containers), daemon.containers, service)
    {
      UndisturbedByNothing(daemon.containers, service);
      assert IsUuid(CompleteUuid(""));
      hide Undisturbed, Services, IsUuid, Inserted, NewInstance;
      if IsDeploying() {
        return false;
      }
      requestedServiceCount := requestedServiceCount + 1;
      var uuid: string :| IsUuid(uuid);
      ghost var before := daemon.containers;
      var id := daemon.ContainerCreate(InstanceName(service, uuid));
      if id.None? {
        return false;
      }
      CreatedServices(before, daemon.containers, id.value, service, uuid);
      InstanceIsNew(before, daemon.containers, id.value, service, uuid);
      ok := daemon.ContainerStart(id.value);
    }

    /** What is requested goes down before the daemon is asked. */
    method Decrease() returns (ok: bool)
      requires daemon.Valid()
      modifies this, daemon
      ensures daemon.Valid() && daemon.listing == old(daemon.listing)
      ensures var mine := old(Services(daemon.containers, service));
              var acts := !old(IsDeploying()) && old(daemon.listing) && mine != [];
              && ok == (!old(IsDeploying()) && old(daemon.listing) && (mine == [] || old(daemon.changes) > 0))
              && requestedServiceCount == old(requestedServiceCount) - (if acts then 1 else 0)
              && Services(daemon.containers, service) == if acts && old(daemon.changes) > 0 then mine[1..] else mine
      ensures Undisturbed(old(daemon.containers), daemon.containers, service)
    {
      UndisturbedByNothing(daemon.containers, service);
      if IsDeploying() || !daemon.listing {
        return false;
      }
      var serviceContainers := Services(daemon.containers, service);
      if |serviceContainers| == 0 {
        return true;
      }
      requestedServiceCount := requestedServiceCount - 1;
      RemovedServices(daemon.containers, service);
      ok := daemon.ContainerRemove(serviceContainers[0].id);
    }

    /** Stops at the first removal that fails. */
    method RemoveAll() returns (ok: bool)
      requires daemon.Valid()
      modifies this, daemon
      ensures daemon.Valid() && daemon.listing == old(daemon.listing) && requestedServiceCount == 0
      ensures var mine := old(Services(daemon.containers, service));
              var gone := if old(daemon.listing) then Min(|mine|, old(daemon.changes)) else 0;
              && ok == (old(daemon.listing) && gone == |mine|)
              && Services(daemon.containers, service) == mine[gone..]
      ensures Undisturbed(old(daemon.containers), daemon.containers, service)
    {
      hide Undisturbed, Services, Without, UniqueIds;
      UndisturbedByNothing(daemon.containers, service);
      requestedServiceCount := 0;
      if !daemon.listing {
        return false;
      }
      var serviceContainers := Services(daemon.containers, service);
      ghost var before := daemon.containers;
      for i := 0 to |serviceContainers|
        invariant daemon.Valid() && daemon.listing && requestedServiceCount == 0
        invariant daemon.changes + i == old(daemon.changes)
        invariant Services(daemon.containers, service) == serviceContainers[i..]
        invariant Undisturbed(before, daemon.containers, service)
      {
        RemovedServices(daemon.containers, service);
        UndisturbedComposes(before, daemon.containers, Without(daemon.containers, serviceContainers[i].id), service);
        ok := daemon.ContainerRemove(serviceContainers[i].id);
        if !ok {
          return;
        }
      }
      ok := true;
    }

    /** One instance dies by itself; nobody takes it off what is requested. */
    method InstanceExits(c: Container)
      requires daemon.Valid() && c in Services(daemon.containers, service)
      modifies daemon
      ensures daemon.Valid() && daemon.listing == old(daemon.listing) && daemon.changes == old(daemon.changes)
      ensures Running() == old(Running()) - 1
      ensures Undisturbed(old(daemon.containers), daemon.containers, service)
    {
      ExitedServices(daemon.containers, c, service);
      RemovalDisturbsNone(daemon.containers, c, service);
      daemon.ContainerExits(c.id);
    }
  }
}
