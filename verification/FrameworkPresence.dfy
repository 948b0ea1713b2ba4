/**
 The presence differ: from one device list to the next, which pads appeared and which left.
 */
module FrameworkPresence {
  import opened Basics
  import opened PackedKeys
  import opened UsbControllers

  datatype Device = Device(vendorId: int, productId: int)
  datatype Signal = Up(vendorId: int, productId: int, key: int) | Down(vendorId: int, productId: int)

  predicate Plausible(devices: seq<Device>) {
    forall i :: 0 <= i < |devices| ==> Is16Bit(devices[i].vendorId) && Is16Bit(devices[i].productId)
  }

  predicate Identified(d: Device) {
    d.vendorId != 0 && d.productId != 0
  }

  function KeyOf(d: Device): int {
    Pack(d.vendorId, d.productId)
  }

  /** The identities a device list shows, packed. */
  ghost function Keys(devices: seq<Device>): set<int> {
    set i | 0 <= i < |devices| && Identified(devices[i]) :: KeyOf(devices[i])
  }

  /** A pad with these ids is in the list. */
  ghost predicate Shows(devices: seq<Device>, vendorId: int, productId: int) {
    Device(vendorId, productId) in devices
  }

  ghost predicate PackedPair(key: int) {
    exists v, p :: Is16Bit(v) && Is16Bit(p) && key == Pack(v, p)
  }

  ghost predicate AllPacked(keys: set<int>) {
    forall key :: key in keys ==> PackedPair(key)
  }

  /** An up for a controller that awaits its framework twin while the twin is in the list. */
  ghost predicate Settles(controllers: map<int, Controller>, current: set<int>, s: Signal) {
    && s.Up? && s.key in controllers && controllers[s.key].phase.AwaitingFramework? && s.key in current
    && s == Up(controllers[s.key].vendorId, controllers[s.key].productId, s.key)
  }

  /** An up for a pad that was not in the list before, with that pad's own ids. */
  ghost predicate Appears(before: set<int>, current: set<int>, s: Signal) {
    s.Up? && s.key in current - before && s == Up(VendorOf(s.key), ProductOf(s.key), s.key)
  }

  /** What one pass does: it remembers the list's identities, signals each one that left down once
      with its own ids, and each one that appeared or is awaited up at least once, and nothing else. */
  ghost predicate Pass(before: set<int>, devices: seq<Device>, controllers: map<int, Controller>,
                       signals: seq<Signal>, after: set<int>) {
    && after == Keys(devices)
    && (forall v, p {:trigger multiset(signals)[Down(v, p)]} :: Is16Bit(v) && Is16Bit(p) ==>
          multiset(signals)[Down(v, p)] == if Pack(v, p) in before - after then 1 else 0)
    && (forall s: Signal :: s.Up? ==> (s in signals <==> Appears(before, after, s) || Settles(controllers, after, s)))
  }

  class Differ {
    var lastFrameworkVpKeys: set<int>

    constructor ()
      ensures lastFrameworkVpKeys == {}
    {
      lastFrameworkVpKeys := {};
    }

    method SyncFrameworkPresence(devices: seq<Device>, controllers: map<int, Controller>) returns (signals: seq<Signal>)
      requires Plausible(devices) && AllPacked(lastFrameworkVpKeys)
      modifies this
      ensures AllPacked(lastFrameworkVpKeys)
      ensures Pass(old(lastFrameworkVpKeys), devices, controllers, signals, lastFrameworkVpKeys)
    {
      var current, ups := Appearances(devices);
      var downs := Departures(current);
      var settles := Settling(current, controllers);
      signals := ups + downs + settles;
      forall v, p | Is16Bit(v) && Is16Bit(p) ensures multiset(signals)[Down(v, p)] == multiset(downs)[Down(v, p)] {
        assert Down(v, p) !in ups && Down(v, p) !in settles;
        assert multiset(signals) == multiset(ups) + multiset(downs) + multiset(settles);
      }
      lastFrameworkVpKeys := current;
    }

    method Appearances(devices: seq<Device>) returns (current: set<int>, ups: seq<Signal>)
      requires Plausible(devices)
      ensures current == Keys(devices) && AllPacked(current)
      ensures forall s :: s in ups <==> Appears(lastFrameworkVpKeys, current, s)
    {
      current, ups := {}, [];
      for i := 0 to |devices|
        invariant current == Keys(devices[..i]) && AllPacked(current)
        invariant forall s :: s in ups <==> Appears(lastFrameworkVpKeys, current, s)
      {
        var d := devices[i];
        KeysOneMore(devices[..i], d);
        assert devices[..i + 1] == devices[..i] + [d];
        if !Identified(d) { continue; }
        var key := KeyOf(d);
        UnpackPack(d.vendorId, d.productId);
        current := current + {key};
        if key !in lastFrameworkVpKeys {
          ups := ups + [Up(d.vendorId, d.productId, key)];
        }
      }
      assert devices[..|devices|] == devices;
    }

    method Departures(current: set<int>) returns (downs: seq<Signal>)
      requires AllPacked(lastFrameworkVpKeys)
      ensures forall s :: s in downs ==> s.Down?
      ensures forall v, p {:trigger multiset(downs)[Down(v, p)]} :: Is16Bit(v) && Is16Bit(p) ==>
                multiset(downs)[Down(v, p)] == if Pack(v, p) in lastFrameworkVpKeys - current then 1 else 0
    {
      downs := [];
      var left := lastFrameworkVpKeys;
      while left != {}
        invariant left <= lastFrameworkVpKeys
        invariant forall s :: s in downs ==> s.Down?
        invariant forall v, p {:trigger multiset(downs)[Down(v, p)]} :: Is16Bit(v) && Is16Bit(p) ==>
                    multiset(downs)[Down(v, p)] == if Pack(v, p) in lastFrameworkVpKeys - left - current then 1 else 0
        decreases |left|
      {
        var key := AnyOf(left);
        ghost var before := downs;
        if key !in current {
          downs := downs + [Down(VendorOf(key), ProductOf(key))];
        }
        forall v, p | Is16Bit(v) && Is16Bit(p)
          ensures multiset(downs)[Down(v, p)] ==
                  if Pack(v, p) in lastFrameworkVpKeys - (left - {key}) - current then 1 else 0
        {
          OneDown(before, key, v, p);
          assert multiset(before)[Down(v, p)] == if Pack(v, p) in lastFrameworkVpKeys - left - current then 1 else 0;
        }
        left := left - {key};
      }
    }

    /** The level-triggered half: a controller parked while its pad never left the list. */
    method Settling(current: set<int>, controllers: map<int, Controller>) returns (ups: seq<Signal>)
      ensures forall s :: s in ups <==> Settles(controllers, current, s)
    {
      ups := [];
      var left := controllers.Keys;
      while left != {}
        invariant left <= controllers.Keys
        invariant forall s :: s in ups <==> Settles(controllers, current, s) && s.key !in left
        decreases |left|
      {
        var key := AnyOf(left);
        if controllers[key].phase.AwaitingFramework? && key in current {
          ups := ups + [Up(controllers[key].vendorId, controllers[key].productId, key)];
        }
        left := left - {key};
      }
    }
  }

  lemma KeysOneMore(devices: seq<Device>, d: Device)
    ensures Keys(devices + [d]) == Keys(devices) + if Identified(d) then {KeyOf(d)} else {}
    ensures Is16Bit(d.vendorId) && Is16Bit(d.productId) ==> PackedPair(KeyOf(d))
  {
    var all := devices + [d];
    forall key | key in Keys(devices) ensures key in Keys(all) {
      var i :| 0 <= i < |devices| && Identified(devices[i]) && KeyOf(devices[i]) == key;
      assert all[i] == devices[i];
    }
    if Identified(d) { assert all[|devices|] == d; }
  }

  lemma OneDown(before: seq<Signal>, key: int, v: int, p: int)
    requires PackedPair(key) && Is16Bit(v) && Is16Bit(p)
    ensures multiset(before + [Down(VendorOf(key), ProductOf(key))])[Down(v, p)] ==
            multiset(before)[Down(v, p)] + if key == Pack(v, p) then 1 else 0
  {
    var v', p' :| Is16Bit(v') && Is16Bit(p') && key == Pack(v', p');
    UnpackPack(v', p');
    UnpackPack(v, p);
  }

  // ----- every sequence of lists -----

  /** The remembered keys are the identities the list shows. */
  lemma KeysAreIdentities(devices: seq<Device>, v: int, p: int)
    requires Plausible(devices) && Is16Bit(v) && Is16Bit(p)
    ensures Pack(v, p) in Keys(devices) <==> v != 0 && p != 0 && Shows(devices, v, p)
  {
    if Pack(v, p) in Keys(devices) {
      var i :| 0 <= i < |devices| && Identified(devices[i]) && KeyOf(devices[i]) == Pack(v, p);
      PackIsInjective(devices[i].vendorId, devices[i].productId, v, p);
      assert devices[i] == Device(v, p);
    }
    if v != 0 && p != 0 && Shows(devices, v, p) {
      var i :| 0 <= i < |devices| && devices[i] == Device(v, p);
      assert KeyOf(devices[i]) in Keys(devices);
    }
  }

  datatype Turn = Turn(devices: seq<Device>, controllers: map<int, Controller>, signals: seq<Signal>)

  /** Passes one after the other, each over what the one before remembered. */
  ghost predicate Passes(before: set<int>, turns: seq<Turn>)
    decreases turns
  {
    turns == [] ||
    (Plausible(turns[0].devices)
     && Pass(before, turns[0].devices, turns[0].controllers, turns[0].signals, Keys(turns[0].devices))
     && Passes(Keys(turns[0].devices), turns[1..]))
  }

  function DownsSent(turns: seq<Turn>, v: int, p: int): nat {
    if turns == [] then 0 else multiset(turns[0].signals)[Down(v, p)] + DownsSent(turns[1..], v, p)
  }

  /** How often a pad that was listed is missing from the next list. */
  ghost function TimesLeft(listed: bool, turns: seq<Turn>, v: int, p: int): nat
    decreases turns
  {
    if turns == [] then 0
    else
      var now := Shows(turns[0].devices, v, p);
      (if listed && !now then 1 else 0) + TimesLeft(now, turns[1..], v, p)
  }

  /** Over every sequence of lists a pad is signalled down exactly once each time it leaves. */
  lemma {:induction false} OneDownADeparture(before: set<int>, listed: bool, turns: seq<Turn>, v: int, p: int)
    requires Passes(before, turns) && Is16Bit(v) && Is16Bit(p) && v != 0 && p != 0
    requires listed <==> Pack(v, p) in before
    ensures DownsSent(turns, v, p) == TimesLeft(listed, turns, v, p)
    decreases turns
  {
    if turns != [] {
      var now := Keys(turns[0].devices);
      KeysAreIdentities(turns[0].devices, v, p);
      assert multiset(turns[0].signals)[Down(v, p)] == if Pack(v, p) in before - now then 1 else 0;
      OneDownADeparture(now, Pack(v, p) in now, turns[1..], v, p);
    }
  }

  /** And up at least once whenever it appears. */
  lemma {:induction false} AnUpAnAppearance(before: set<int>, turns: seq<Turn>, k: nat, v: int, p: int)
    requires Passes(before, turns) && k < |turns| && Is16Bit(v) && Is16Bit(p) && v != 0 && p != 0
    requires Shows(turns[k].devices, v, p)
    requires if k == 0 then Pack(v, p) !in before else !Shows(turns[k - 1].devices, v, p)
    ensures Up(v, p, Pack(v, p)) in turns[k].signals
    decreases turns
  {
    KeysAreIdentities(turns[0].devices, v, p);
    UnpackPack(v, p);
    assert k == 0 ==> Appears(before, Keys(turns[0].devices), Up(v, p, Pack(v, p)));
    if k > 0 {
      AnUpAnAppearance(Keys(turns[0].devices), turns[1..], k - 1, v, p);
    }
  }
}
