/**
 SPIBusIterator (platforms/common/spi.cpp, spi.h): a resumable enumeration of the devices in the
 board's SPI bus table that a driver may be started on.
 */
module SpiBuses {

  const MAX_DEVICES := 6              // SPI_BUS_MAX_DEVICES
  const PX4_SPI_DEVICE_ID := 0x1000

  /** csPin is the pin number that masking csGpio gives. */
  datatype Device = Device(csGpio: nat, csPin: int, devid: nat, devtypeDriver: nat)

  /** `present` is what board_has_bus answers for the bus; number -1 ends the table. */
  datatype Bus = Bus(number: int, isExternal: bool, present: bool, devices: seq<Device>)

  datatype Filter = InternalBus | ExternalBus

  /** What a driver asks for; -1 for `chipselect` or `bus` means any. */
  datatype Query = Query(filter: Filter, driver: nat, chipselect: int, bus: int)

  function DevidType(devid: nat): nat { (devid / 0x1_0000) % 0x1_0000 }

  ghost predicate ValidTable(table: seq<Bus>) {
    forall k | 0 <= k < |table| :: |table[k].devices| == MAX_DEVICES
  }

  // ---------- the reference: which devices, in which order ----------

  /** Number of entries in use. */
  function Limit(table: seq<Bus>): (n: nat)
    ensures n <= |table|
    ensures forall k | 0 <= k < n :: table[k].number != -1
    ensures n < |table| ==> table[n].number == -1
  {
    if table == [] || table[0].number == -1 then 0 else 1 + Limit(table[1..])
  }

  /** How many of the first k buses are external and present. */
  function ExternalsBefore(table: seq<Bus>, k: nat): nat
    requires k <= |table|
  {
    if k == 0 then 0
    else ExternalsBefore(table, k - 1) + if table[k - 1].present && table[k - 1].isExternal then 1 else 0
  }

  function CsIndex(chipselect: int): nat { if chipselect < 1 then 0 else chipselect - 1 }

  /** Device j of bus k is one the query asks for. External buses are numbered from 1 in table order. */
  predicate Wanted(table: seq<Bus>, q: Query, k: nat, j: nat)
    requires k < |table| && j < |table[k].devices|
  {
    var b, d := table[k], table[k].devices[j];
    && b.present
    && match q.filter
       case InternalBus =>
         && !b.isExternal
         && (q.bus == b.number || q.bus == -1)
         && DevidType(d.devid) == PX4_SPI_DEVICE_ID
         && q.driver == d.devtypeDriver
         && (q.chipselect < 0 || q.chipselect == d.csPin)
       case ExternalBus =>
         && b.isExternal
         && q.bus == ExternalsBefore(table, k) + 1
         && j == CsIndex(q.chipselect)
         && d.csGpio != 0
  }

  /** All wanted devices from device j of bus k on, in table order. */
  function WantedFrom(table: seq<Bus>, q: Query, k: nat, j: nat): (r: seq<(nat, nat)>)
    requires ValidTable(table) && k <= Limit(table) && j <= MAX_DEVICES
    decreases Limit(table) - k, MAX_DEVICES - j
  {
    if k == Limit(table) then []
    else if j == MAX_DEVICES then WantedFrom(table, q, k + 1, 0)
    else (if Wanted(table, q, k, j) then [(k, j)] else []) + WantedFrom(table, q, k, j + 1)
  }

  predicate Precedes(a: (nat, nat), b: (nat, nat)) { a.0 < b.0 || (a.0 == b.0 && a.1 < b.1) }

  /** The reference list holds exactly the wanted devices, each once, in table order. */
  lemma {:induction false} WantedFromIsExact(table: seq<Bus>, q: Query, k: nat, j: nat)
    requires ValidTable(table) && k <= Limit(table) && j <= MAX_DEVICES
    ensures forall x: nat, y: nat ::
              (x, y) in WantedFrom(table, q, k, j) <==>
              x < Limit(table) && y < MAX_DEVICES && !Precedes((x, y), (k, j)) && Wanted(table, q, x, y)
    ensures forall a, b | 0 <= a < b < |WantedFrom(table, q, k, j)| ::
              Precedes(WantedFrom(table, q, k, j)[a], WantedFrom(table, q, k, j)[b])
    decreases Limit(table) - k, MAX_DEVICES - j
  {
    if k == Limit(table) {
    } else if j == MAX_DEVICES {
      WantedFromIsExact(table, q, k + 1, 0);
    } else {
      WantedFromIsExact(table, q, k, j + 1);
      var rest := WantedFrom(table, q, k, j + 1);
      forall a | 0 <= a < |rest|
        ensures Precedes((k, j), rest[a])
      {
        assert (rest[a].0, rest[a].1) in rest;
      }
    }
  }

  ghost function ExternalBuses(table: seq<Bus>, k: nat): set<int>
    requires k <= |table|
  {
    set l | 0 <= l < k && table[l].present && table[l].isExternal
  }

  lemma {:induction false} ExternalsAreCounted(table: seq<Bus>, k: nat)
    requires k <= |table|
    ensures ExternalsBefore(table, k) == |ExternalBuses(table, k)|
  {
    if k > 0 {
      ExternalsAreCounted(table, k - 1);
      var l := k - 1;
      if table[l].present && table[l].isExternal {
        assert ExternalBuses(table, k) == ExternalBuses(table, l) + {l};
      } else {
        assert ExternalBuses(table, k) == ExternalBuses(table, l);
      }
    }
  }

  /**
   An external query names the device by two counts from 1: bus b is the b-th external bus of the
   board, and chip select c its c-th device, or the first one if none is given.
   */
  lemma ExternalSelects(table: seq<Bus>, q: Query, k: nat, j: nat)
    requires k < |table| && j < |table[k].devices| && q.filter == ExternalBus
    ensures
      Wanted(table, q, k, j) <==>
        && k in ExternalBuses(table, k + 1) && |ExternalBuses(table, k + 1)| == q.bus
        && j + 1 == (if q.chipselect >= 1 then q.chipselect else 1)
        && table[k].devices[j].csGpio > 0
  {
    ExternalsAreCounted(table, k + 1);
  }

  /**
   An internal query matches SPI devices of the given driver on present internal buses, on the given
   bus and pin if any are given. The upper half of a device's id tells that it is an SPI device.
   */
  lemma InternalSelects(table: seq<Bus>, q: Query, k: nat, j: nat)
    requires k < |table| && j < |table[k].devices| && q.filter == InternalBus
    ensures
      var b, d := table[k], table[k].devices[j];
      Wanted(table, q, k, j) <==>
        && b.present && !b.isExternal && q.driver == d.devtypeDriver
        && (q.bus != -1 ==> q.bus == b.number)
        && (q.chipselect >= 0 ==> q.chipselect == d.csPin)
        && 0x1000_0000 <= d.devid % 0x1_0000_0000 < 0x1001_0000
  {
    UpperHalf(table[k].devices[j].devid);
  }

  lemma UpperHalf(devid: nat)
    ensures (devid / 0x1_0000) % 0x1_0000 == (devid % 0x1_0000_0000) / 0x1_0000
  {
    var q, r := devid / 0x1_0000_0000, devid % 0x1_0000_0000;
    assert devid == 0x1_0000_0000 * q + r;
    assert devid / 0x1_0000 == 0x1_0000 * q + r / 0x1_0000;
  }

  lemma ExternalsGrow(table: seq<Bus>, k: nat, l: nat)
    requires k < l <= |table| && table[k].present && table[k].isExternal
    ensures ExternalsBefore(table, k) < ExternalsBefore(table, l)
  {
    if k + 1 < l {
      ExternalsGrow(table, k, l - 1);
    }
  }

  /** An external query names at most one device. */
  lemma ExternalIsUnique(table: seq<Bus>, q: Query)
    requires ValidTable(table) && q.filter == ExternalBus
    ensures |WantedFrom(table, q, 0, 0)| <= 1
  {
    var r := WantedFrom(table, q, 0, 0);
    WantedFromIsExact(table, q, 0, 0);
    if |r| > 1 {
      var a, b := r[0], r[1];
      assert (a.0, a.1) in r && (b.0, b.1) in r;
      if a.0 < b.0 {
        ExternalsGrow(table, a.0, b.0);
      }
    }
  }

  // ---------- the iterator ----------

  /** Devices j up to j' of bus k are not wanted: the enumeration can go on at j'. */
  lemma {:induction false} SkipDevices(table: seq<Bus>, q: Query, k: nat, j: nat, j': nat)
    requires ValidTable(table) && k < Limit(table) && j <= j' <= MAX_DEVICES
    requires forall y | j <= y < j' :: !Wanted(table, q, k, y)
    ensures WantedFrom(table, q, k, j) == WantedFrom(table, q, k, j')
    decreases j' - j
  {
    if j < j' {
      SkipDevices(table, q, k, j + 1, j');
    }
  }

  lemma SkipBus(table: seq<Bus>, q: Query, k: nat, j: nat)
    requires ValidTable(table) && k < Limit(table) && j <= MAX_DEVICES
    requires forall y | j <= y < MAX_DEVICES :: !Wanted(table, q, k, y)
    ensures WantedFrom(table, q, k, j) == WantedFrom(table, q, k + 1, 0)
  {
    SkipDevices(table, q, k, j, MAX_DEVICES);
  }

  lemma AtEnd(table: seq<Bus>, q: Query, j: nat)
    requires ValidTable(table) && j <= MAX_DEVICES
    ensures WantedFrom(table, q, Limit(table), j) == []
  {
  }

  lemma TakeDevice(table: seq<Bus>, q: Query, k: nat, j: nat, i: nat)
    requires ValidTable(table) && k < Limit(table) && j <= i < MAX_DEVICES
    requires forall y | j <= y < i :: !Wanted(table, q, k, y)
    requires Wanted(table, q, k, i)
    ensures WantedFrom(table, q, k, j) == [(k, i)] + WantedFrom(table, q, k, i + 1)
  {
    SkipDevices(table, q, k, j, i);
  }

  class SPIBusIterator {
    const table: seq<Bus>
    const query: Query
    var index: nat
    var externalBusCounter: int
    var busDeviceIndex: int

    ghost predicate Valid()
      reads this
    {
      && ValidTable(table)
      && index <= Limit(table)
      && externalBusCounter == ExternalsBefore(table, index) + 1
      && -1 <= busDeviceIndex < MAX_DEVICES
      && (query.filter == ExternalBus ==> busDeviceIndex == -1 || busDeviceIndex == CsIndex(query.chipselect))
    }

    /** What is still to come. */
    ghost function Remaining(): seq<(nat, nat)>
      requires Valid()
      reads this
    {
      WantedFrom(table, query, index, busDeviceIndex + 1)
    }

    constructor (buses: seq<Bus>, filter: Filter, driver: nat, chipselect: int, bus: int)
      requires ValidTable(buses)
      ensures Valid() && table == buses
      ensures query == Query(filter, driver, chipselect, if filter == ExternalBus && bus == -1 then 1 else bus)
      ensures Remaining() == WantedFrom(table, query, 0, 0)
    {
      table := buses;
      query := Query(filter, driver, chipselect, if filter == ExternalBus && bus == -1 then 1 else bus);
      index, externalBusCounter, busDeviceIndex := 0, 1, -1;
    }

    /** next(): moves to the next wanted device, or returns false, then and ever after. */
    method Next() returns (found: bool)
      requires Valid()
      modifies this`index, this`externalBusCounter, this`busDeviceIndex
      ensures Valid()
      ensures found == (old(Remaining()) != [])
      ensures found ==> index < Limit(table) && 0 <= busDeviceIndex && old(Remaining()) == [(index, busDeviceIndex as nat)] + Remaining()
      ensures !found ==> Remaining() == []
    {
      hide WantedFrom, Wanted;
      while index < |table| && table[index].number != -1
        invariant Valid() && Remaining() == old(Remaining())
        decreases Limit(table) - index
      {
        ghost var k, j := index, busDeviceIndex + 1;
        var i := FindOnBus();
        if i < MAX_DEVICES {
          TakeDevice(table, query, k, j, i);
          busDeviceIndex := i;
          return true;
        }
        SkipBus(table, query, k, j);
        if table[index].present && table[index].isExternal {
          externalBusCounter := externalBusCounter + 1;
        }
        index := index + 1;
        busDeviceIndex := -1;
      }
      AtEnd(table, query, busDeviceIndex + 1);
      found := false;
    }

    /** The switch of next(): the next wanted device on the current bus, or MAX_DEVICES. */
    method FindOnBus() returns (i: nat)
      requires Valid() && index < Limit(table)
      ensures busDeviceIndex < i <= MAX_DEVICES
      ensures forall y: nat | busDeviceIndex < y < i :: !Wanted(table, query, index, y)
      ensures i < MAX_DEVICES ==> Wanted(table, query, index, i)
    {
      var busData := table[index];
      if busData.present {
        match query.filter
        case InternalBus =>
          if !busData.isExternal {
            if query.bus == busData.number || query.bus == -1 {
              i := busDeviceIndex + 1;
              while i < MAX_DEVICES
                invariant busDeviceIndex < i <= MAX_DEVICES
                invariant forall y: nat | busDeviceIndex < y < i :: !Wanted(table, query, index, y)
              {
                if PX4_SPI_DEVICE_ID == DevidType(busData.devices[i].devid) &&
                   query.driver == busData.devices[i].devtypeDriver &&
                   (query.chipselect < 0 || query.chipselect == busData.devices[i].csPin)
                {
                  return i;
                }
                i := i + 1;
              }
            }
          }
        case ExternalBus =>
          if busData.isExternal {
            var csIndex := CsIndex(query.chipselect);
            if query.bus == externalBusCounter && csIndex < MAX_DEVICES &&
               busData.devices[csIndex].csGpio != 0 && csIndex != busDeviceIndex
            {
              return csIndex;
            }
          }
      }
      i := MAX_DEVICES;
    }
  }

  /** Calling next() until it returns false visits exactly the wanted devices, in table order. */
  method VisitAll(it: SPIBusIterator) returns (visited: seq<(nat, nat)>)
    requires it.Valid()
    modifies it
    ensures it.Valid() && it.Remaining() == []
    ensures visited == old(it.Remaining())
  {
    visited := [];
    var found := it.Next();
    while found
      invariant it.Valid()
      invariant found ==> 0 <= it.busDeviceIndex
      invariant old(it.Remaining())
             == if found then visited + [(it.index, it.busDeviceIndex as nat)] + it.Remaining() else visited
      invariant !found ==> it.Remaining() == []
      decreases found, |it.Remaining()|
    {
      visited := visited + [(it.index, it.busDeviceIndex as nat)];
      found := it.Next();
    }
  }
}
