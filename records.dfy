/**
 The values that flow through the network detector: packet records (Python
 dictionaries keyed by field name), the traffic batch that carries them, the
 alert record it emits, and the errors that abort a batch.
 */
module Records {

  /** A field value of a packet record. Python integers and floats are both
      `Num`; anything textual (addresses, symbolic protocol names) is `Text`. */
  datatype Value = Num(x: real) | Text(s: string)

  /** One packet record: a dictionary from field name to value. */
  type Packet = map<string, Value>

  /** The `traffic_data` dictionary; only its `packets` entry is ever read,
      and it may be absent. */
  datatype TrafficData = TrafficData(packets: Option<seq<Packet>>)

  /** A feature matrix: one row per packet. */
  type Matrix = seq<seq<Value>>

  /** The classifier's output: one row of class probabilities per feature row;
      column 1 is the malicious class. */
  type Probabilities = seq<seq<real>>

  const PacketsKey: string := "packets"
  const SizeKey: string := "size"
  const ProtocolKey: string := "protocol"
  const PortKey: string := "port"
  const FrequencyKey: string := "frequency"
  const SourceKey: string := "source"
  const DestinationKey: string := "destination"

  /** The feature columns, in the order every feature row lists them. */
  const FeatureKeys: seq<string> := [SizeKey, ProtocolKey, PortKey, FrequencyKey]

  /** The packet fields an alert copies, in the order the alert reads them. */
  const AlertKeys: seq<string> := [SourceKey, DestinationKey, ProtocolKey]

  /** The `type` field of every alert. */
  const AnomalyType: string := "NETWORK_ANOMALY"

  /** Malicious-class probability that a prediction must strictly exceed. */
  const Threshold: real := 0.8

  /** The alert dictionary `{type, confidence, source, destination, protocol}`. */
  datatype Alert = Alert(kind: string, confidence: real, source: Value, destination: Value, protocol: Value)

  /** Why a batch was aborted: a dictionary lookup that raised `KeyError`, a
      prediction row too short for `pred[1]` (`IndexError`), or a failure
      reported by the classifier (not fitted, wrong width, non-numeric input). */
  datatype Error =
    | MissingKey(key: string)
    | IndexOutOfRange(index: int)
    | ClassifierError(reason: string)

  datatype Option<T> = None | Some(value: T)

  datatype Result<T> = Success(value: T) | Failure(error: Error)

  /** True when the packet carries every feature column. */
  predicate HasFeatureKeys(packet: Packet)
  {
    forall k :: k in FeatureKeys ==> k in packet
  }

  /** True when the packet carries every field an alert copies. */
  predicate HasAlertKeys(packet: Packet)
  {
    forall k :: k in AlertKeys ==> k in packet
  }

  /** True when the prediction row names the packet malicious with enough
      confidence to raise an alert. */
  predicate Malicious(pred: seq<real>)
  {
    |pred| >= 2 && pred[1] > Threshold
  }

  function Min(a: int, b: int): int
  {
    if a <= b then a else b
  }
}
