/** The facts about a detection event that the dashboards read. */
module Detections {
  import opened Prelude

  /** The schema of every producer requires a non-empty store id. */
  type StoreId = s: string | s != "" witness "store"

  datatype DetectionType = DeviceOffline | DeviceOnline | StoreOutage | StoreRecovered | SignalAnomaly

  /** Identifiers are hashes of stable coordinates; here they are the coordinates. */
  datatype DetectionId =
    | OfDevice(kind: DetectionType, store: StoreId, device: string, eventId: string)
    | OfStore(kind: DetectionType, store: StoreId, windowStart: int, windowEnd: int)
    | OfSignal(store: StoreId, signal: string, windowStart: int, windowEnd: int)

  datatype Detection = Detection(
    detectionId: DetectionId,
    detectionType: DetectionType,
    detectedAt: int,
    storeId: StoreId,
    deviceId: Option<string>,
    signalName: Option<string>
  )

  /** Store ids are listed in string order. */
  function StoreIdAtMost(): (StoreId, StoreId) -> bool {
    (a: StoreId, b: StoreId) => a == b || StringLess(a, b)
  }

  lemma {:induction false} StoreIdsAreOrdered()
    ensures TotalOrder(StoreIdAtMost())
  {
    StringsAreOrdered();
    forall a: StoreId, b: StoreId ensures StoreIdAtMost()(a, b) == StringAtMost()(a, b) {
    }
  }
}
