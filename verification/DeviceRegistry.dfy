/** The live device-to-store mapping, kept in both directions. */
module DeviceRegistries {
  import opened Prelude
  import opened Detections

  /** One step of a run: a registration, or the arrival of something else. */
  datatype Op<+E> = Register(device: string, store: StoreId) | Arrive(e: E)

  /** The device mapping after a run. */
  function Binding<E>(ops: seq<Op<E>>): map<string, StoreId> {
    if ops == [] then map[]
    else
      var past := Binding(ops[..|ops| - 1]);
      match ops[|ops| - 1]
      case Register(device, store) => past[device := store]
      case Arrive(_) => past
  }

  /** A device is bound to the store of its latest registration. */
  lemma {:induction false} BindingIsLatest<E>(ops: seq<Op<E>>, device: string, i: nat)
    requires i < |ops| && IsLatest(ops, device, i)
    ensures device in Binding(ops) && Binding(ops)[device] == ops[i].store
  {
    var n := |ops| - 1;
    if i < n {
      assert !(ops[n].Register? && ops[n].device == device);
      BindingIsLatest(ops[..n], device, i);
    }
  }

  /** And to none before its first. */
  lemma {:induction false} BoundWasRegistered<E>(ops: seq<Op<E>>, device: string) returns (i: nat)
    requires device in Binding(ops)
    ensures i < |ops| && IsLatest(ops, device, i)
  {
    i := |ops| - 1;
    if !(ops[i].Register? && ops[i].device == device) {
      i := BoundWasRegistered(ops[..|ops| - 1], device);
    }
  }

  predicate IsLatest<E>(ops: seq<Op<E>>, device: string, i: nat)
    requires i < |ops|
  {
    && ops[i].Register? && ops[i].device == device
    && forall j :: i < j < |ops| ==> !(ops[j].Register? && ops[j].device == device)
  }

  /** The number of devices bound to the store. */
  function CountIn(deviceToStore: map<string, StoreId>, store: string): nat {
    |set d | d in deviceToStore && deviceToStore[d] == store|
  }

  predicate Lists(storeToDevices: map<StoreId, set<string>>, s: StoreId, d: string) {
    s in storeToDevices && d in storeToDevices[s]
  }

  /** Each device is listed under its own store and nowhere else, and no store is listed without devices. */
  ghost predicate Inverse(deviceToStore: map<string, StoreId>, storeToDevices: map<StoreId, set<string>>) {
    && (forall s, d :: Lists(storeToDevices, s, d) <==> d in deviceToStore && deviceToStore[d] == s)
    && (forall s :: s in storeToDevices ==> storeToDevices[s] != {})
  }

  function Unlist(storeToDevices: map<StoreId, set<string>>, s: StoreId, d: string): map<StoreId, set<string>>
    requires s in storeToDevices
  {
    var left := storeToDevices[s] - {d};
    if left == {} then storeToDevices - {s} else storeToDevices[s := left]
  }

  function Enlist(storeToDevices: map<StoreId, set<string>>, s: StoreId, d: string): map<StoreId, set<string>> {
    storeToDevices[s := (if s in storeToDevices then storeToDevices[s] else {}) + {d}]
  }

  lemma {:induction false} UnlistKeepsInverse(deviceToStore: map<string, StoreId>,
                                              storeToDevices: map<StoreId, set<string>>, d: string)
    requires Inverse(deviceToStore, storeToDevices) && d in deviceToStore
    ensures deviceToStore[d] in storeToDevices
    ensures Inverse(deviceToStore - {d}, Unlist(storeToDevices, deviceToStore[d], d))
  {
    var previous := deviceToStore[d];
    assert Lists(storeToDevices, previous, d);
    var after := Unlist(storeToDevices, previous, d);
    forall s, x ensures Lists(after, s, x) <==> Lists(storeToDevices, s, x) && x != d {
      if Lists(storeToDevices, s, d) {
        assert s == previous;
      }
    }
  }

  lemma {:induction false} EnlistKeepsInverse(deviceToStore: map<string, StoreId>,
                                              storeToDevices: map<StoreId, set<string>>, s: StoreId, d: string)
    requires Inverse(deviceToStore, storeToDevices) && d !in deviceToStore
    ensures Inverse(deviceToStore[d := s], Enlist(storeToDevices, s, d))
  {
    var after := Enlist(storeToDevices, s, d);
    forall t, x ensures Lists(after, t, x) <==> Lists(storeToDevices, t, x) || (t == s && x == d) {
    }
  }

  /** A device's own store is the one that lists it. */
  lemma {:induction false} StoreForIsListed(r: DeviceRegistry, device: string, s: StoreId)
    requires r.Valid()
    ensures r.StoreFor(device) == Some(s) <==> s in r.storeToDevices && device in r.storeToDevices[s]
    ensures r.StoreFor(device) == None <==> device !in r.deviceToStore
  {
    assert Lists(r.storeToDevices, s, device) <==> device in r.deviceToStore && r.deviceToStore[device] == s;
  }

  class DeviceRegistry {
    var deviceToStore: map<string, StoreId>
    var storeToDevices: map<StoreId, set<string>>

    ghost predicate Valid()
      reads this
    {
      Inverse(deviceToStore, storeToDevices)
    }

    constructor ()
      ensures Valid() && deviceToStore == map[]
    {
      deviceToStore := map[];
      storeToDevices := map[];
    }

    /** Binds the device to the store, taking it away from the store it was bound to before. */
    method ObserveRegistration(deviceId: string, storeId: StoreId)
      requires Valid()
      modifies this
      ensures Valid()
      ensures deviceToStore == old(deviceToStore)[deviceId := storeId]
    {
      if deviceId in deviceToStore && deviceToStore[deviceId] == storeId {
        assert deviceToStore == deviceToStore[deviceId := storeId];
        return;
      }
      ghost var others := deviceToStore - {deviceId};
      if deviceId in deviceToStore {
        UnlistKeepsInverse(deviceToStore, storeToDevices, deviceId);
        var previous := deviceToStore[deviceId];
        var left := storeToDevices[previous] - {deviceId};
        storeToDevices := storeToDevices[previous := left];
        if left == {} {
          assert storeToDevices - {previous} == old(storeToDevices) - {previous};
          storeToDevices := storeToDevices - {previous};
        }
      } else {
        assert others == deviceToStore;
      }
      EnlistKeepsInverse(others, storeToDevices, storeId, deviceId);
      assert others[deviceId := storeId] == deviceToStore[deviceId := storeId];
      deviceToStore := deviceToStore[deviceId := storeId];
      var devices := if storeId in storeToDevices then storeToDevices[storeId] else {};
      storeToDevices := storeToDevices[storeId := devices + {deviceId}];
    }

    function StoreFor(deviceId: string): Option<StoreId>
      reads this
    {
      if deviceId in deviceToStore then Some(deviceToStore[deviceId]) else None
    }

    /** The number of devices bound to the store, which the second mapping answers without a scan. */
    method DeviceCount(storeId: StoreId) returns (n: nat)
      requires Valid()
      ensures n == CountIn(deviceToStore, storeId) == |set d | d in deviceToStore && deviceToStore[d] == storeId|
    {
      ghost var devices := set d | d in deviceToStore && deviceToStore[d] == storeId;
      assert forall d :: d in devices <==> Lists(storeToDevices, storeId, d);
      if storeId in storeToDevices {
        n := |storeToDevices[storeId]|;
        assert storeToDevices[storeId] == devices;
      } else {
        n := 0;
        assert devices == {};
      }
    }

    /** The stores that have a device. */
    method KnownStores() returns (stores: set<StoreId>)
      requires Valid()
      ensures stores == deviceToStore.Values
    {
      stores := storeToDevices.Keys;
      forall s ensures s in storeToDevices <==> s in deviceToStore.Values {
        if s in storeToDevices {
          var d :| d in storeToDevices[s];
          assert Lists(storeToDevices, s, d);
        }
        if s in deviceToStore.Values {
          var d :| d in deviceToStore && deviceToStore[d] == s;
          assert Lists(storeToDevices, s, d);
        }
      }
    }
  }
}
