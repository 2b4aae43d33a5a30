/**
 The registry of running I2C/SPI driver instances and the iterator over it
 (platforms/common/i2c_spi_buses.cpp, i2c_spi_buses.h). A list node is its position in the
 list; the registry mutex is held for as long as an iterator lives, so nobody else moves it.
 */
module BusInstances {

  datatype BusOption = All | I2CInternal | I2CExternal | SPIInternal | SPIExternal

  predicate IsI2C(option: BusOption) { option.I2CInternal? || option.I2CExternal? }

  /** What I2CSPIInstance stores. The address is an int8_t there. */
  datatype Instance = Instance(moduleName: string, option: BusOption, bus: int, driver: nat, device: int, i2cAddress: int)

  /** One stop of a bus iterator: bus number and device index on it (-1 on I2C). */
  datatype Target = Target(bus: int, device: int)

  /** What an iterator looks for. The address is a uint8_t here. */
  datatype Query = Query(moduleName: string, option: BusOption, driver: nat, address: nat) {
    predicate Valid() { address < 256 }
  }

  function ToInt8(x: nat): int
    requires x < 256
  {
    if x < 128 then x else x - 256
  }

  /** The instance that module_start creates on a target, if the driver stores its configuration. */
  function NewInstance(q: Query, t: Target): Instance
    requires q.Valid()
  {
    Instance(q.moduleName, q.option, t.bus, q.driver, t.device, ToInt8(q.address))
  }

  /** next() with option All stops at these. */
  predicate SameDriver(q: Query, x: Instance) { x.moduleName == q.moduleName && x.driver == q.driver }

  /** next() on a bus takes x for the instance that runs on target t. */
  predicate Occupies(q: Query, t: Target, x: Instance) {
    && x.moduleName == q.moduleName && x.option == q.option && x.bus == t.bus && x.driver == q.driver
    && x.device == t.device && (IsI2C(q.option) ==> x.i2cAddress == q.address)
  }

  /** The full key: module, bus option, bus, driver, device, and on I2C the address. */
  predicate SameKey(x: Instance, y: Instance) {
    && x.moduleName == y.moduleName && x.option == y.option && x.bus == y.bus && x.driver == y.driver
    && x.device == y.device && (IsI2C(x.option) ==> x.i2cAddress == y.i2cAddress)
  }

  ghost predicate Unique(list: seq<Instance>) {
    forall a, b | 0 <= a < b < |list| :: !SameKey(list[a], list[b])
  }

  /** The list without the instances that p selects. */
  ghost function Without(list: seq<Instance>, p: Instance -> bool): seq<Instance> {
    if list == [] then []
    else (if p(list[0]) then [] else [list[0]]) + Without(list[1..], p)
  }

  ghost function ByDriver(q: Query): Instance -> bool { x => SameDriver(q, x) }

  ghost function ByTarget(q: Query, t: Target): Instance -> bool { x => Occupies(q, t, x) }

  function RemoveAt(list: seq<Instance>, k: nat): seq<Instance>
    requires k < |list|
  {
    list[..k] + list[k + 1..]
  }

  lemma {:induction false} WithoutAppend(a: seq<Instance>, b: seq<Instance>, p: Instance -> bool)
    ensures Without(a + b, p) == Without(a, p) + Without(b, p)
  {
    if a == [] {
      assert a + b == b;
    } else {
      assert (a + b)[1..] == a[1..] + b;
      WithoutAppend(a[1..], b, p);
    }
  }

  lemma {:induction false} WithoutNone(list: seq<Instance>, p: Instance -> bool)
    requires forall k | 0 <= k < |list| :: !p(list[k])
    ensures Without(list, p) == list
  {
    if list != [] {
      WithoutNone(list[1..], p);
    }
  }

  lemma WithoutFirst(x: Instance, rest: seq<Instance>, p: Instance -> bool)
    requires p(x)
    ensures Without([x] + rest, p) == Without(rest, p)
  {
    assert ([x] + rest)[1..] == rest;
  }

  /** Taking out one selected instance does not change what is left without them all. */
  lemma WithoutRemoveAt(list: seq<Instance>, k: nat, p: Instance -> bool)
    requires k < |list| && p(list[k])
    ensures Without(RemoveAt(list, k), p) == Without(list, p)
  {
    hide Without;
    WithoutMiddle(list, list[..k], list[k], list[k + 1..], p);
  }

  lemma WithoutMiddle(list: seq<Instance>, a: seq<Instance>, x: Instance, b: seq<Instance>, p: Instance -> bool)
    requires list == a + ([x] + b) && p(x)
    ensures Without(a + b, p) == Without(list, p)
  {
    WithoutFirst(x, b, p);
    hide Without;
    WithoutAppend(a, [x] + b, p);
    WithoutAppend(a, b, p);
  }

  // ---------- addresses ----------

  /**
   A second start with the same arguments recognizes the running instance exactly if the address
   survives being stored as an int8_t.
   */
  lemma RunningInstanceIsRecognized(q: Query, t: Target)
    requires q.Valid()
    ensures Occupies(q, t, NewInstance(q, t)) <==> !IsI2C(q.option) || q.address < 128
  {
  }

  /** For 7 bit addresses, "already running" and "has the same key" are the same thing. */
  lemma OccupiesIsSameKey(q: Query, t: Target, x: Instance)
    requires q.Valid() && (!IsI2C(q.option) || q.address < 128)
    ensures Occupies(q, t, x) <==> SameKey(NewInstance(q, t), x)
  {
  }

  // ---------- the registry and its iterator ----------

  datatype Cursor = End | At(k: nat)

  class Registry {
    var list: seq<Instance>

    constructor ()
      ensures list == []
    {
      list := [];
    }
  }

  class BusInstanceIterator {
    const registry: Registry
    const query: Query
    const targets: seq<Target>   // what the SPI or I2C bus iterator goes through
    var visited: nat             // how far it has got
    var current: Cursor          // _current_instance

    constructor (registry: Registry, query: Query, targets: seq<Target>)
      ensures this.registry == registry && this.query == query && this.targets == targets
      ensures visited == 0 && current == End
    {
      this.registry, this.query, this.targets := registry, query, targets;
      visited, current := 0, End;
    }

    ghost predicate Valid()
      reads this, registry
    {
      && query.Valid()
      && visited <= |targets|
      && (current.At? ==> current.k < |registry.list|)
    }

    /** next() with option All: the next instance of this driver after the current one. */
    method NextInstance() returns (found: bool)
      requires Valid()
      modifies this`current
      ensures Valid()
      ensures
        var start := if old(current).End? then 0 else old(current).k + 1;
        if found then
          && current.At? && start <= current.k && SameDriver(query, registry.list[current.k])
          && forall k | start <= k < current.k :: !SameDriver(query, registry.list[k])
        else
          && current.End?
          && forall k | start <= k < |registry.list| :: !SameDriver(query, registry.list[k])
    {
      var list := registry.list;
      var start := if current.End? then 0 else current.k + 1;
      var k := start;
      while k < |list|
        invariant start <= k <= |list|
        invariant forall i | start <= i < k :: !SameDriver(query, list[i])
      {
        if list[k].moduleName == query.moduleName && query.driver == list[k].driver {
          current := At(k);
          return true;
        }
        k := k + 1;
      }
      current := End;
      found := false;
    }

    /** next() on a bus: the next target, and the instance that runs there, if any. */
    method NextTarget() returns (found: bool)
      requires Valid()
      modifies this`current, this`visited
      ensures Valid()
      ensures found == (old(visited) < |targets|)
      ensures !found ==> visited == old(visited)
      ensures found ==>
                && visited == old(visited) + 1
                && var t := targets[visited - 1];
                   && (current.At? ==> Occupies(query, t, registry.list[current.k]))
                   && forall k | 0 <= k < (if current.At? then current.k else |registry.list|) ::
                        !Occupies(query, t, registry.list[k])
    {
      if visited == |targets| {
        return false;
      }
      var t := targets[visited];
      visited := visited + 1;
      var k := 0;
      while k < |registry.list|
        invariant k <= |registry.list|
        invariant forall i | 0 <= i < k :: !Occupies(query, t, registry.list[i])
      {
        if Occupies(query, t, registry.list[k]) {
          current := At(k);
          return true;
        }
        k := k + 1;
      }
      current := End;
      found := true;
    }

    /** removeInstance(): the cursor goes to the predecessor, or to the end if there is none. */
    method RemoveInstance()
      requires Valid() && current.At?
      modifies this`current, registry
      ensures Valid()
      ensures registry.list == RemoveAt(old(registry.list), old(current).k)
      ensures current == if old(current).k == 0 then End else At(old(current).k - 1)
    {
      var list := registry.list;
      var previous := 0;
      while previous < |list| && !(previous + 1 < |list| && previous + 1 == current.k)
        invariant previous <= |list|
        invariant current.k > 0 ==> previous < current.k
      {
        previous := previous + 1;
      }
      registry.list := RemoveAt(list, current.k);
      current := if previous < |list| then At(previous) else End;
    }
  }

  // ---------- stopping ----------

  ghost predicate Occupied(list: seq<Instance>, q: Query, t: Target) {
    exists k | 0 <= k < |list| :: Occupies(q, t, list[k])
  }

  /** The list after one instance on target t, the first, is removed. */
  ghost function Vacate(list: seq<Instance>, q: Query, t: Target): seq<Instance> {
    if list == [] then []
    else if Occupies(q, t, list[0]) then list[1..]
    else [list[0]] + Vacate(list[1..], q, t)
  }

  /** What module_stop leaves: by driver for option All, otherwise target by target. */
  ghost function Stopped(list: seq<Instance>, q: Query, targets: seq<Target>): seq<Instance> {
    if q.option == All then Without(list, ByDriver(q))
    else StoppedOn(list, q, targets)
  }

  ghost function StoppedOn(list: seq<Instance>, q: Query, targets: seq<Target>): seq<Instance> {
    if targets == [] then list
    else Vacate(StoppedOn(list, q, targets[..|targets| - 1]), q, targets[|targets| - 1])
  }

  lemma {:induction false} VacateFirst(list: seq<Instance>, q: Query, t: Target, k: nat)
    requires k < |list| && Occupies(q, t, list[k]) && forall i | 0 <= i < k :: !Occupies(q, t, list[i])
    ensures Vacate(list, q, t) == RemoveAt(list, k)
  {
    if k > 0 {
      VacateFirst(list[1..], q, t, k - 1);
    }
  }

  lemma {:induction false} VacateNone(list: seq<Instance>, q: Query, t: Target)
    requires !Occupied(list, q, t)
    ensures Vacate(list, q, t) == list
  {
    if list != [] {
      VacateNone(list[1..], q, t);
    }
  }

  method StopAll(it: BusInstanceIterator) returns (isRunning: bool)
    requires it.Valid() && it.current == End
    modifies it`current, it.registry
    ensures it.registry.list == Without(old(it.registry.list), ByDriver(it.query))
    ensures isRunning == (it.registry.list != old(it.registry.list))
  {
    ghost var p := ByDriver(it.query);
    isRunning := false;
    var found := it.NextInstance();
    while found
      invariant it.Valid() && found == it.current.At?
      invariant found ==> SameDriver(it.query, it.registry.list[it.current.k])
      invariant forall k | 0 <= k < (if found then it.current.k else |it.registry.list|) :: !p(it.registry.list[k])
      invariant Without(it.registry.list, p) == Without(old(it.registry.list), p)
      invariant isRunning == (|it.registry.list| < |old(it.registry.list)|)
      invariant |it.registry.list| <= |old(it.registry.list)|
      invariant !isRunning ==> it.registry.list == old(it.registry.list)
      decreases found, |it.registry.list|
    {
      WithoutRemoveAt(it.registry.list, it.current.k, p);
      it.RemoveInstance();
      isRunning := true;
      found := it.NextInstance();
    }
    WithoutNone(it.registry.list, p);
  }

  method StopOnBus(it: BusInstanceIterator) returns (isRunning: bool)
    requires it.Valid() && it.visited == 0
    modifies it, it.registry
    ensures it.registry.list == StoppedOn(old(it.registry.list), it.query, it.targets)
    ensures isRunning == (it.registry.list != old(it.registry.list))
  {
    isRunning := false;
    var found := it.NextTarget();
    assert it.targets[..0] == [];
    while found
      invariant it.Valid() && (found ==> it.visited > 0)
      invariant found ==>
                  var t := it.targets[it.visited - 1];
                  && it.registry.list == StoppedOn(old(it.registry.list), it.query, it.targets[..it.visited - 1])
                  && (it.current.At? ==> Occupies(it.query, t, it.registry.list[it.current.k]))
                  && (forall k | 0 <= k < (if it.current.At? then it.current.k else |it.registry.list|) ::
                        !Occupies(it.query, t, it.registry.list[k]))
      invariant !found ==> it.visited == |it.targets| && it.registry.list == StoppedOn(old(it.registry.list), it.query, it.targets)
      invariant isRunning == (|it.registry.list| < |old(it.registry.list)|)
      invariant |it.registry.list| <= |old(it.registry.list)|
      invariant !isRunning ==> it.registry.list == old(it.registry.list)
      decreases found, |it.targets| - it.visited
    {
      ghost var before, v := it.registry.list, it.visited;
      ghost var t := it.targets[v - 1];
      assert it.targets[..v][..v - 1] == it.targets[..v - 1];
      if it.current.At? {
        VacateFirst(before, it.query, t, it.current.k);
        it.RemoveInstance();
        isRunning := true;
      } else {
        VacateNone(before, it.query, t);
      }
      assert it.registry.list == StoppedOn(old(it.registry.list), it.query, it.targets[..v]);
      found := it.NextTarget();
      assert it.targets[..|it.targets|] == it.targets;
    }
  }

  /** module_stop(): 0 if anything was running, else -1. */
  method ModuleStop(it: BusInstanceIterator) returns (ret: int)
    requires it.Valid() && it.current == End && it.visited == 0
    modifies it, it.registry
    ensures it.registry.list == Stopped(old(it.registry.list), it.query, it.targets)
    ensures ret == if it.registry.list != old(it.registry.list) then 0 else -1
  {
    var isRunning;
    if it.query.option == All {
      isRunning := StopAll(it);
    } else {
      isRunning := StopOnBus(it);
    }
    ret := if isRunning then 0 else -1;
  }

  // ---------- starting ----------

  /**
   What module_start leaves: on every target that is not occupied and where the driver's instantiate
   succeeds, a new instance.
   */
  ghost function Started(list: seq<Instance>, q: Query, targets: seq<Target>, succeeds: seq<bool>): seq<Instance>
    requires q.Valid() && |targets| == |succeeds|
  {
    if targets == [] then list
    else
      var n := |targets| - 1;
      var before := Started(list, q, targets[..n], succeeds[..n]);
      if Occupied(before, q, targets[n]) || !succeeds[n] then before else before + [NewInstance(q, targets[n])]
  }

  /** module_start(); `succeeds[k]` is whether instantiate finds a device on target k. */
  method ModuleStart(it: BusInstanceIterator, succeeds: seq<bool>) returns (ret: int)
    requires it.Valid() && it.visited == 0 && |succeeds| == |it.targets|
    modifies it, it.registry
    ensures it.query.option == All ==> ret == -1 && it.registry.list == old(it.registry.list)
    ensures it.query.option != All ==>
              && it.registry.list == Started(old(it.registry.list), it.query, it.targets, succeeds)
              && ret == if it.registry.list != old(it.registry.list) then 0 else -1
  {
    if it.query.option == All {
      return -1;
    }
    var started := false;
    ghost var was := it.registry.list;
    assert it.targets[..0] == [] && succeeds[..0] == [];
    var found := it.NextTarget();
    while found
      invariant it.Valid() && (found ==> it.visited > 0)
      invariant found ==>
                  && it.registry.list == Started(was, it.query, it.targets[..it.visited - 1], succeeds[..it.visited - 1])
                  && (it.current.At? <==> Occupied(it.registry.list, it.query, it.targets[it.visited - 1]))
      invariant !found ==> it.registry.list == Started(was, it.query, it.targets, succeeds)
      invariant started == (|it.registry.list| > |was|)
      invariant was <= it.registry.list
      decreases found, |it.targets| - it.visited
    {
      ghost var v := it.visited;
      assert it.targets[..v][..v - 1] == it.targets[..v - 1] && succeeds[..v][..v - 1] == succeeds[..v - 1];
      if it.current.End? && succeeds[it.visited - 1] {
        it.registry.list := it.registry.list + [NewInstance(it.query, it.targets[it.visited - 1])];
        started := true;
      }
      assert it.registry.list == Started(was, it.query, it.targets[..v], succeeds[..v]);
      found := it.NextTarget();
      assert it.targets[..|it.targets|] == it.targets && succeeds[..|succeeds|] == succeeds;
    }
    ret := if started then 0 else -1;
  }

  // ---------- keys stay unique over every run of commands ----------

  lemma {:induction false} StartedKeepsUnique(list: seq<Instance>, q: Query, targets: seq<Target>, succeeds: seq<bool>)
    requires q.Valid() && |targets| == |succeeds| && Unique(list)
    requires !IsI2C(q.option) || q.address < 128
    ensures Unique(Started(list, q, targets, succeeds))
  {
    if targets != [] {
      var n := |targets| - 1;
      StartedKeepsUnique(list, q, targets[..n], succeeds[..n]);
      var before := Started(list, q, targets[..n], succeeds[..n]);
      if !Occupied(before, q, targets[n]) {
        forall k | 0 <= k < |before|
          ensures !SameKey(before[k], NewInstance(q, targets[n]))
        {
          OccupiesIsSameKey(q, targets[n], before[k]);
        }
      }
    }
  }

  lemma {:induction false} StartedOccupies(list: seq<Instance>, q: Query, targets: seq<Target>, succeeds: seq<bool>, k: nat)
    requires q.Valid() && |targets| == |succeeds| && k < |targets| && (!IsI2C(q.option) || q.address < 128)
    ensures list <= Started(list, q, targets, succeeds)
    ensures succeeds[k] ==> Occupied(Started(list, q, targets, succeeds), q, targets[k])
  {
    var n := |targets| - 1;
    var before, after := Started(list, q, targets[..n], succeeds[..n]), Started(list, q, targets, succeeds);
    assert before <= after;
    if n > 0 {
      StartedOccupies(list, q, targets[..n], succeeds[..n], if k < n then k else 0);
    }
    if k < n && succeeds[k] {
      var i :| 0 <= i < |before| && Occupies(q, targets[k], before[i]);
      assert Occupies(q, targets[k], after[i]);
    } else if k == n && succeeds[k] && !Occupied(before, q, targets[n]) {
      OccupiesIsSameKey(q, targets[n], NewInstance(q, targets[n]));
      assert Occupies(q, targets[n], after[|before|]);
    }
  }

  /** x is an instance of the driver for target k, where a device was found and nothing ran before. */
  ghost predicate AddedOn(list: seq<Instance>, q: Query, targets: seq<Target>, succeeds: seq<bool>, x: Instance, k: int)
    requires |targets| == |succeeds|
  {
    && 0 <= k < |targets| && succeeds[k] && !Occupied(list, q, targets[k])
    && x.moduleName == q.moduleName && x.option == q.option && x.driver == q.driver
    && x.bus == targets[k].bus && x.device == targets[k].device
  }

  ghost predicate AddedSomewhere(list: seq<Instance>, q: Query, targets: seq<Target>, succeeds: seq<bool>, x: Instance)
    requires |targets| == |succeeds|
  {
    exists k :: AddedOn(list, q, targets, succeeds, x, k)
  }

  lemma OccupiedStays(list: seq<Instance>, more: seq<Instance>, q: Query, t: Target)
    requires list <= more && Occupied(list, q, t)
    ensures Occupied(more, q, t)
  {
    var k :| 0 <= k < |list| && Occupies(q, t, list[k]);
    assert more[k] == list[k];
  }

  /** Starting adds nothing but instances on free targets where a device was found. */
  lemma {:induction false} StartedAddsOnly(list: seq<Instance>, q: Query, targets: seq<Target>, succeeds: seq<bool>)
    requires q.Valid() && |targets| == |succeeds|
    ensures list <= Started(list, q, targets, succeeds)
    ensures
      var more := Started(list, q, targets, succeeds);
      forall i | |list| <= i < |more| :: AddedSomewhere(list, q, targets, succeeds, more[i])
  {
    if targets != [] {
      var n := |targets| - 1;
      var before, more := Started(list, q, targets[..n], succeeds[..n]), Started(list, q, targets, succeeds);
      StartedAddsOnly(list, q, targets[..n], succeeds[..n]);
      hide Occupied;
      forall i | |list| <= i < |more|
        ensures AddedSomewhere(list, q, targets, succeeds, more[i])
      {
        if i < |before| {
          var k :| AddedOn(list, q, targets[..n], succeeds[..n], before[i], k);
          assert AddedOn(list, q, targets, succeeds, more[i], k);
        } else {
          if Occupied(list, q, targets[n]) {
            OccupiedStays(list, before, q, targets[n]);
          }
          assert AddedOn(list, q, targets, succeeds, more[i], n);
        }
      }
    }
  }

  lemma {:induction false} WithoutKeepsUnique(list: seq<Instance>, p: Instance -> bool)
    requires Unique(list)
    ensures Unique(Without(list, p))
    ensures forall x :: x in Without(list, p) <==> x in list && !p(x)
  {
    if list != [] {
      var rest := Without(list[1..], p);
      WithoutKeepsUnique(list[1..], p);
      assert list == [list[0]] + list[1..];
      forall k | 0 <= k < |rest|
        ensures !SameKey(list[0], rest[k])
      {
        assert rest[k] in list[1..];
      }
    }
  }

  /** With unique keys, removing the first instance on a target removes every one. */
  lemma VacateUnique(list: seq<Instance>, q: Query, t: Target)
    requires Unique(list)
    ensures Vacate(list, q, t) == Without(list, ByTarget(q, t))
  {
    var p := ByTarget(q, t);
    hide Without, Vacate;
    if !Occupied(list, q, t) {
      VacateNone(list, q, t);
      WithoutNone(list, p);
    } else {
      var k := FirstOccupant(list, q, t);
      VacateFirst(list, q, t, k);
      WithoutRemoveAt(list, k, p);
      OneOccupant(list, q, t, k);
      hide RemoveAt, Unique;
      WithoutNone(RemoveAt(list, k), p);
    }
  }

  lemma OneOccupant(list: seq<Instance>, q: Query, t: Target, k: nat)
    requires Unique(list) && k < |list| && Occupies(q, t, list[k])
    ensures var left := RemoveAt(list, k); forall i | 0 <= i < |left| :: !Occupies(q, t, left[i])
  {
    var left := RemoveAt(list, k);
    forall i | 0 <= i < |left|
      ensures !Occupies(q, t, left[i])
    {
      var j := if i < k then i else i + 1;
      assert left[i] == list[j];
    }
  }

  lemma FirstOccupant(list: seq<Instance>, q: Query, t: Target) returns (k: nat)
    requires Occupied(list, q, t)
    ensures k < |list| && Occupies(q, t, list[k]) && forall i | 0 <= i < k :: !Occupies(q, t, list[i])
  {
    k := 0;
    while !Occupies(q, t, list[k])
      invariant k < |list| && forall i | 0 <= i < k :: !Occupies(q, t, list[i])
      decreases |list| - k
    {
      k := k + 1;
    }
  }

  ghost predicate Selected(q: Query, targets: seq<Target>, x: Instance) {
    if q.option == All then SameDriver(q, x) else exists t :: t in targets && Occupies(q, t, x)
  }

  /**
   module_stop is about the driver's instances: all of them for option All, and otherwise those of
   that bus option on a target of the command, on I2C at the address of the command.
   */
  lemma SelectedIsExact(q: Query, targets: seq<Target>, x: Instance)
    ensures
      Selected(q, targets, x) <==>
        && x.moduleName == q.moduleName && x.driver == q.driver
        && (q.option != All ==>
              && x.option == q.option && Target(x.bus, x.device) in targets
              && (q.option == I2CInternal || q.option == I2CExternal ==> x.i2cAddress == q.address))
  {
    var here := Target(x.bus, x.device);
    assert here in targets ==> exists t :: t in targets && t == here;
  }

  ghost function Selection(q: Query, targets: seq<Target>): Instance -> bool { x => Selected(q, targets, x) }

  lemma {:induction false} WithoutTwice(list: seq<Instance>, p: Instance -> bool, r: Instance -> bool, either: Instance -> bool)
    requires forall x :: either(x) <==> p(x) || r(x)
    ensures Without(Without(list, p), r) == Without(list, either)
  {
    if list != [] {
      WithoutTwice(list[1..], p, r, either);
      var rest := Without(list[1..], p);
      if !p(list[0]) {
        assert ([list[0]] + rest)[1..] == rest;
      } else {
        assert [] + rest == rest;
      }
    }
  }

  lemma {:induction false} WithoutSame(list: seq<Instance>, p: Instance -> bool, r: Instance -> bool)
    requires forall x :: p(x) <==> r(x)
    ensures Without(list, p) == Without(list, r)
  {
    if list != [] {
      WithoutSame(list[1..], p, r);
    }
  }

  /** module_stop removes exactly the instances selected, and nothing else; keys stay unique. */
  lemma {:induction false} StoppedRemovesExactly(list: seq<Instance>, q: Query, targets: seq<Target>)
    requires Unique(list)
    ensures Stopped(list, q, targets) == Without(list, Selection(q, targets))
    ensures Unique(Stopped(list, q, targets))
    ensures forall x :: x in Stopped(list, q, targets) <==> x in list && !Selected(q, targets, x)
  {
    var p := Selection(q, targets);
    if q.option == All {
      WithoutSame(list, ByDriver(q), p);
    } else if targets == [] {
      WithoutNone(list, p);
    } else {
      var n := |targets| - 1;
      var front, t := targets[..n], targets[n];
      assert targets == front + [t];
      StoppedRemovesExactly(list, q, front);
      VacateUnique(StoppedOn(list, q, front), q, t);
      WithoutTwice(list, Selection(q, front), ByTarget(q, t), p);
    }
    WithoutKeepsUnique(list, p);
  }

  datatype Command = Start(q: Query, targets: seq<Target>, succeeds: seq<bool>) | Stop(q: Query, targets: seq<Target>)

  ghost predicate CommandOk(c: Command) {
    c.q.Valid() && (c.Start? ==> |c.targets| == |c.succeeds|)
  }

  /** The registry after a sequence of module_start and module_stop commands. */
  ghost function AfterCommands(commands: seq<Command>): seq<Instance>
    requires forall k | 0 <= k < |commands| :: CommandOk(commands[k])
  {
    if commands == [] then []
    else
      var before, c := AfterCommands(commands[..|commands| - 1]), commands[|commands| - 1];
      assert CommandOk(c);
      match c
      case Start(q, targets, succeeds) =>
        if q.option == All then before else Started(before, q, targets, succeeds)
      case Stop(q, targets) => Stopped(before, q, targets)
  }

  /** Over any sequence of commands with 7 bit I2C addresses, no two instances share their key. */
  lemma {:induction false} KeysStayUnique(commands: seq<Command>)
    requires forall k | 0 <= k < |commands| :: CommandOk(commands[k])
    requires forall k | 0 <= k < |commands| && commands[k].Start? && IsI2C(commands[k].q.option) :: commands[k].q.address < 128
    ensures Unique(AfterCommands(commands))
  {
    if commands != [] {
      var n := |commands| - 1;
      var before := AfterCommands(commands[..n]);
      KeysStayUnique(commands[..n]);
      match commands[n]
      case Start(q, targets, succeeds) =>
        if q.option != All {
          StartedKeepsUnique(before, q, targets, succeeds);
        }
      case Stop(q, targets) => StoppedRemovesExactly(before, q, targets);
    }
  }

  /** With an 8 bit address the same driver starts a second time on the same target. */
  lemma EightBitAddressStartsTwice(q: Query, t: Target)
    requires q.Valid() && IsI2C(q.option) && q.address >= 128
    ensures
      var once := Start(q, [t], [true]);
      !Unique(AfterCommands([once, once]))
  {
    var once, x := Start(q, [t], [true]), NewInstance(q, t);
    assert [once, once][..1] == [once] && [once][..0] == [];
    assert [t][..0] == [] && [true][..0] == [];
    assert Started([], q, [t], [true]) == [x];
    assert AfterCommands([once]) == [x];
    assert !Occupied([x], q, t);
    assert Started([x], q, [t], [true]) == [x, x];
    assert SameKey([x, x][0], [x, x][1]);
  }
}
