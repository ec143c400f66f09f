/**
 The packet-to-alert pipeline of `NetworkDetector`: feature extraction, a call
 to the (abstract) classifier, and threshold-based alert generation.

 Each step of the pipeline that the source writes as a loop is a method whose
 postcondition equates its result with a specification function defined on
 prefixes of the input; the lemmas state what those functions promise.
 */
module NetworkDetector {
  import opened Records

  // ---------------------------------------------------------------------------
  // Feature extraction (`_extract_features`)
  // ---------------------------------------------------------------------------

  /** The feature row `[size, protocol, port, frequency]` of one packet; the
      lookups run in that order and the first absent key raises. */
  function FeatureRow(packet: Packet): (r: Result<seq<Value>>)
    ensures r.Success? <==> HasFeatureKeys(packet)
    ensures r.Success? ==>
      |r.value| == |FeatureKeys| &&
      forall j :: 0 <= j < |FeatureKeys| ==> FeatureKeys[j] in packet && r.value[j] == packet[FeatureKeys[j]]
    ensures r.Failure? ==>
      exists j :: 0 <= j < |FeatureKeys| && r.error == MissingKey(FeatureKeys[j]) && FeatureKeys[j] !in packet &&
        forall l :: 0 <= l < j ==> FeatureKeys[l] in packet
  {
    if SizeKey !in packet then assert FeatureKeys[0] == SizeKey; Failure(MissingKey(SizeKey))
    else if ProtocolKey !in packet then assert FeatureKeys[1] == ProtocolKey; Failure(MissingKey(ProtocolKey))
    else if PortKey !in packet then assert FeatureKeys[2] == PortKey; Failure(MissingKey(PortKey))
    else if FrequencyKey !in packet then assert FeatureKeys[3] == FrequencyKey; Failure(MissingKey(FrequencyKey))
    else Success([packet[SizeKey], packet[ProtocolKey], packet[PortKey], packet[FrequencyKey]])
  }

  /** Feature extraction over the first `n` packets: the rows in packet order,
      or the error of the first packet whose row cannot be built. */
  function FeaturesUpTo(packets: seq<Packet>, n: nat): (r: Result<Matrix>)
    requires n <= |packets|
    ensures r.Success? ==> |r.value| == n
  {
    if n == 0 then Success([])
    else
      match FeaturesUpTo(packets, n - 1)
      case Failure(e) => Failure(e)
      case Success(rows) =>
        match FeatureRow(packets[n - 1])
        case Failure(e) => Failure(e)
        case Success(row) => Success(rows + [row])
  }

  /** What `_extract_features(traffic_data)` returns or raises. */
  function ExtractedFeatures(t: TrafficData): Result<Matrix>
  {
    match t.packets
    case None => Failure(MissingKey(PacketsKey))
    case Some(packets) => FeaturesUpTo(packets, |packets|)
  }

  /** Once a prefix fails, every longer prefix fails with the same error. */
  lemma {:induction false} FeaturesFailurePersists(packets: seq<Packet>, i: nat, n: nat)
    requires i <= n <= |packets|
    requires FeaturesUpTo(packets, i).Failure?
    ensures FeaturesUpTo(packets, n) == FeaturesUpTo(packets, i)
    decreases n
  {
    if n > i {
      FeaturesFailurePersists(packets, i, n - 1);
    }
  }

  /** Row `i` is built from packet `i` alone, in the fixed column order. */
  lemma {:induction false} FeaturesRowwise(packets: seq<Packet>, n: nat)
    requires n <= |packets|
    requires FeaturesUpTo(packets, n).Success?
    ensures forall i :: 0 <= i < n ==>
      HasFeatureKeys(packets[i]) &&
      FeaturesUpTo(packets, n).value[i] ==
        [packets[i][SizeKey], packets[i][ProtocolKey], packets[i][PortKey], packets[i][FrequencyKey]]
  {
    if n > 0 {
      FeaturesRowwise(packets, n - 1);
      var p := packets[n - 1];
      assert FeatureRow(p).Success?;
      assert FeatureKeys[0] in FeatureKeys && FeatureKeys[1] in FeatureKeys;
      assert FeatureKeys[2] in FeatureKeys && FeatureKeys[3] in FeatureKeys;
    }
  }

  /** Extraction succeeds exactly when every packet carries all four feature keys. */
  lemma {:induction false} FeaturesSucceedIff(packets: seq<Packet>, n: nat)
    requires n <= |packets|
    ensures FeaturesUpTo(packets, n).Success? <==> forall i :: 0 <= i < n ==> HasFeatureKeys(packets[i])
  {
    if n > 0 {
      FeaturesSucceedIff(packets, n - 1);
      if FeaturesUpTo(packets, n - 1).Failure? {
        var i :| 0 <= i < n - 1 && !HasFeatureKeys(packets[i]);
      }
    }
  }

  /** A failed extraction reports the first missing key of the first
      incomplete packet; every packet before it was complete. */
  lemma {:induction false} FeaturesFailOnFirstIncomplete(packets: seq<Packet>, n: nat)
    requires n <= |packets|
    requires FeaturesUpTo(packets, n).Failure?
    ensures exists i ::
      && 0 <= i < n
      && !HasFeatureKeys(packets[i])
      && FeatureRow(packets[i]) == Failure(FeaturesUpTo(packets, n).error)
      && forall j :: 0 <= j < i ==> HasFeatureKeys(packets[j])
  {
    if FeaturesUpTo(packets, n - 1).Failure? {
      FeaturesFailOnFirstIncomplete(packets, n - 1);
    } else {
      FeaturesSucceedIff(packets, n - 1);
    }
  }

  /** `_extract_features`: one row appended per packet, in input order. */
  method ExtractFeatures(t: TrafficData) returns (r: Result<Matrix>)
    ensures r == ExtractedFeatures(t)
  {
    if t.packets.None? {
      return Failure(MissingKey(PacketsKey));
    }
    var packets := t.packets.value;
    var features: Matrix := [];
    var i := 0;
    while i < |packets|
      invariant i <= |packets|
      invariant FeaturesUpTo(packets, i) == Success(features)
    {
      var row := FeatureRow(packets[i]);
      if row.Failure? {
        FeaturesFailurePersists(packets, i + 1, |packets|);
        return Failure(row.error);
      }
      features := features + [row.value];
      i := i + 1;
    }
    r := Success(features);
  }

  // ---------------------------------------------------------------------------
  // Alert generation (`_generate_alerts`)
  // ---------------------------------------------------------------------------

  /** The alert dictionary for a qualifying prediction; its `source`,
      `destination` and `protocol` lookups run in that order. */
  function AlertRecord(pred: seq<real>, packet: Packet): (r: Result<Alert>)
    requires |pred| >= 2
    ensures r.Success? <==> HasAlertKeys(packet)
    ensures r.Success? ==>
      HasAlertKeys(packet) &&
      r.value.kind == AnomalyType && r.value.confidence == pred[1] &&
      r.value.source == packet[SourceKey] && r.value.destination == packet[DestinationKey] &&
      r.value.protocol == packet[ProtocolKey]
    ensures r.Failure? ==>
      exists j :: 0 <= j < |AlertKeys| && r.error == MissingKey(AlertKeys[j]) && AlertKeys[j] !in packet &&
        forall l :: 0 <= l < j ==> AlertKeys[l] in packet
  {
    if SourceKey !in packet then assert AlertKeys[0] == SourceKey; Failure(MissingKey(SourceKey))
    else if DestinationKey !in packet then assert AlertKeys[1] == DestinationKey; Failure(MissingKey(DestinationKey))
    else if ProtocolKey !in packet then assert AlertKeys[2] == ProtocolKey; Failure(MissingKey(ProtocolKey))
    else
      assert AlertKeys == [SourceKey, DestinationKey, ProtocolKey];
      Success(Alert(AnomalyType, pred[1], packet[SourceKey], packet[DestinationKey], packet[ProtocolKey]))
  }

  /** One iteration of the loop: `pred[1]` (which raises on a short row), the
      strict threshold test, and the alert it may produce. */
  function AlertFor(pred: seq<real>, packet: Packet): (r: Result<Option<Alert>>)
    ensures |pred| < 2 ==> r == Failure(IndexOutOfRange(1))
    ensures Malicious(pred) && !HasAlertKeys(packet) ==> r == Failure(AlertRecord(pred, packet).error)
    ensures r.Success? <==> |pred| >= 2 && (pred[1] > Threshold ==> HasAlertKeys(packet))
    ensures r.Success? ==> (r.value.Some? <==> Malicious(pred))
    ensures r.Success? && r.value.Some? ==> AlertRecord(pred, packet) == Success(r.value.value)
  {
    if |pred| < 2 then Failure(IndexOutOfRange(1))
    else if pred[1] > Threshold then
      match AlertRecord(pred, packet)
      case Failure(e) => Failure(e)
      case Success(alert) => Success(Some(alert))
    else Success(None)
  }

  /** The alerts of the first `n` (prediction, packet) pairs, or the error of
      the first pair that raises. */
  function AlertsUpTo(predictions: Probabilities, packets: seq<Packet>, n: nat): (r: Result<seq<Alert>>)
    requires n <= |predictions| && n <= |packets|
    ensures r.Success? ==> |r.value| <= n
  {
    if n == 0 then Success([])
    else
      match AlertsUpTo(predictions, packets, n - 1)
      case Failure(e) => Failure(e)
      case Success(alerts) =>
        match AlertFor(predictions[n - 1], packets[n - 1])
        case Failure(e) => Failure(e)
        case Success(None) => Success(alerts)
        case Success(Some(alert)) => Success(alerts + [alert])
  }

  /** What `_generate_alerts(predictions, traffic_data)` returns or raises:
      `zip` pairs the two sequences up to the shorter one. */
  function GeneratedAlerts(predictions: Probabilities, t: TrafficData): Result<seq<Alert>>
  {
    match t.packets
    case None => Failure(MissingKey(PacketsKey))
    case Some(packets) => AlertsUpTo(predictions, packets, Min(|predictions|, |packets|))
  }

  /** The indices below `n` whose prediction is malicious, in increasing order:
      the reference the generated alerts are compared with. */
  function Qualifying(predictions: Probabilities, n: nat): (r: seq<nat>)
    requires n <= |predictions|
    ensures forall k :: 0 <= k < |r| ==> r[k] < n
    ensures forall k, l :: 0 <= k < l < |r| ==> r[k] < r[l]
    ensures forall i :: 0 <= i < n ==> (i in r <==> Malicious(predictions[i]))
  {
    if n == 0 then []
    else Qualifying(predictions, n - 1) + (if Malicious(predictions[n - 1]) then [n - 1] else [])
  }

  /** Once a prefix fails, every longer prefix fails with the same error. */
  lemma {:induction false} AlertsFailurePersists(predictions: Probabilities, packets: seq<Packet>, i: nat, n: nat)
    requires i <= n <= |predictions| && n <= |packets|
    requires AlertsUpTo(predictions, packets, i).Failure?
    ensures AlertsUpTo(predictions, packets, n) == AlertsUpTo(predictions, packets, i)
    decreases n
  {
    if n > i {
      AlertsFailurePersists(predictions, packets, i, n - 1);
    }
  }

  /** The alerts are exactly one record per qualifying index, in index order,
      each built from the prediction and the packet at that same index. */
  lemma {:induction false} AlertsMatchQualifyingPackets(predictions: Probabilities, packets: seq<Packet>, n: nat)
    requires n <= |predictions| && n <= |packets|
    requires AlertsUpTo(predictions, packets, n).Success?
    ensures var alerts, idx := AlertsUpTo(predictions, packets, n).value, Qualifying(predictions, n);
      |alerts| == |idx| &&
      forall k :: 0 <= k < |alerts| ==>
        Malicious(predictions[idx[k]]) && AlertRecord(predictions[idx[k]], packets[idx[k]]) == Success(alerts[k])
  {
    if n > 0 {
      AlertsMatchQualifyingPackets(predictions, packets, n - 1);
      var alerts', idx' := AlertsUpTo(predictions, packets, n - 1).value, Qualifying(predictions, n - 1);
      var alerts, idx := AlertsUpTo(predictions, packets, n).value, Qualifying(predictions, n);
      var o := AlertFor(predictions[n - 1], packets[n - 1]);
      if o.value.Some? {
        assert alerts == alerts' + [o.value.value];
        assert idx == idx' + [n - 1];
      } else {
        assert alerts == alerts';
        assert idx == idx';
      }
    }
  }

  /** Every alert is a `NETWORK_ANOMALY` whose confidence is strictly above 0.8. */
  lemma {:induction false} AlertsAboveThreshold(predictions: Probabilities, packets: seq<Packet>, n: nat)
    requires n <= |predictions| && n <= |packets|
    requires AlertsUpTo(predictions, packets, n).Success?
    ensures forall a :: a in AlertsUpTo(predictions, packets, n).value ==>
      a.kind == AnomalyType && a.confidence > Threshold
  {
    AlertsMatchQualifyingPackets(predictions, packets, n);
    var alerts, idx := AlertsUpTo(predictions, packets, n).value, Qualifying(predictions, n);
    forall a | a in alerts
      ensures a.kind == AnomalyType && a.confidence > Threshold
    {
      var k :| 0 <= k < |alerts| && alerts[k] == a;
      assert AlertRecord(predictions[idx[k]], packets[idx[k]]) == Success(a);
    }
  }

  /** Generation succeeds exactly when every paired prediction row has a
      malicious column and every packet that qualifies carries the alert fields. */
  lemma {:induction false} AlertsSucceedIff(predictions: Probabilities, packets: seq<Packet>, n: nat)
    requires n <= |predictions| && n <= |packets|
    ensures AlertsUpTo(predictions, packets, n).Success? <==>
      forall i :: 0 <= i < n ==>
        |predictions[i]| >= 2 && (predictions[i][1] > Threshold ==> HasAlertKeys(packets[i]))
  {
    if n > 0 {
      AlertsSucceedIff(predictions, packets, n - 1);
    }
  }

  /** A failed generation reports the error of the first pair that raises;
      every earlier pair went through. */
  lemma {:induction false} AlertsFailOnFirstBadPair(predictions: Probabilities, packets: seq<Packet>, n: nat)
    requires n <= |predictions| && n <= |packets|
    requires AlertsUpTo(predictions, packets, n).Failure?
    ensures exists i ::
      && 0 <= i < n
      && AlertFor(predictions[i], packets[i]) == Failure(AlertsUpTo(predictions, packets, n).error)
      && forall j :: 0 <= j < i ==> AlertFor(predictions[j], packets[j]).Success?
  {
    var e := AlertsUpTo(predictions, packets, n).error;
    if AlertsUpTo(predictions, packets, n - 1).Failure? {
      AlertsFailOnFirstBadPair(predictions, packets, n - 1);
    } else {
      AlertsSucceedIff(predictions, packets, n - 1);
      assert AlertFor(predictions[n - 1], packets[n - 1]) == Failure(e);
      assert forall j :: 0 <= j < n - 1 ==> AlertFor(predictions[j], packets[j]).Success?;
    }
  }

  /** `_generate_alerts`: walks the zipped pairs and appends an alert for each
      prediction above the threshold. */
  method GenerateAlerts(predictions: Probabilities, t: TrafficData) returns (r: Result<seq<Alert>>)
    ensures r == GeneratedAlerts(predictions, t)
  {
    if t.packets.None? {
      return Failure(MissingKey(PacketsKey));
    }
    var packets := t.packets.value;
    var n := Min(|predictions|, |packets|);
    var alerts: seq<Alert> := [];
    var i := 0;
    while i < |predictions| && i < |packets|
      invariant i <= n
      invariant AlertsUpTo(predictions, packets, i) == Success(alerts)
    {
      var pred, packet := predictions[i], packets[i];
      if |pred| < 2 {
        AlertsFailurePersists(predictions, packets, i + 1, n);
        return Failure(IndexOutOfRange(1));
      }
      if pred[1] > Threshold {
        var alert := AlertRecord(pred, packet);
        if alert.Failure? {
          AlertsFailurePersists(predictions, packets, i + 1, n);
          return Failure(alert.error);
        }
        alerts := alerts + [alert.value];
      }
      i := i + 1;
    }
    r := Success(alerts);
  }

  /** A prediction whose malicious column is at most 0.8 (exactly 0.8
      included) raises nothing and emits nothing, whatever the row's width and
      even for a packet without any alert fields. */
  lemma ThresholdIsExclusive(pred: seq<real>, packet: Packet)
    requires |pred| >= 2 && pred[1] <= Threshold
    ensures AlertFor(pred, packet) == Success(None)
  {
  }

  // ---------------------------------------------------------------------------
  // The pipeline (`analyze_traffic`)
  // ---------------------------------------------------------------------------

  /** The classifier's shape promise: as many prediction rows as feature rows,
      each with at least the benign and malicious columns. */
  ghost predicate WellShaped(classify: Matrix -> Result<Probabilities>)
  {
    forall m: Matrix :: classify(m).Success? ==>
      |classify(m).value| == |m| && forall i :: 0 <= i < |m| ==> |classify(m).value[i]| >= 2
  }

  /** What `analyze_traffic(traffic_data)` returns or raises for a given
      classifier: features, then predictions, then alerts; the first error aborts. */
  function Analyze(classify: Matrix -> Result<Probabilities>, t: TrafficData): Result<seq<Alert>>
  {
    match ExtractedFeatures(t)
    case Failure(e) => Failure(e)
    case Success(features) =>
      match classify(features)
      case Failure(e) => Failure(e)
      case Success(predictions) => GeneratedAlerts(predictions, t)
  }

  /** `analyze_traffic`: the three steps in sequence. Since the result is a
      function of the classifier and the batch, the same batch always yields
      the same alerts. */
  method AnalyzeTraffic(classify: Matrix -> Result<Probabilities>, t: TrafficData) returns (r: Result<seq<Alert>>)
    ensures r == Analyze(classify, t)
  {
    var features := ExtractFeatures(t);
    if features.Failure? {
      return Failure(features.error);
    }
    var predictions := classify(features.value);
    if predictions.Failure? {
      return Failure(predictions.error);
    }
    r := GenerateAlerts(predictions.value, t);
  }

  /** Whatever the classifier does: no more alerts than packets, each an
      anomaly with confidence strictly above 0.8. */
  lemma AnalyzeBounded(classify: Matrix -> Result<Probabilities>, t: TrafficData)
    requires Analyze(classify, t).Success?
    ensures t.packets.Some?
    ensures |Analyze(classify, t).value| <= |t.packets.value|
    ensures forall a :: a in Analyze(classify, t).value ==> a.kind == AnomalyType && a.confidence > Threshold
  {
    var packets := t.packets.value;
    var predictions := classify(ExtractedFeatures(t).value).value;
    AlertsAboveThreshold(predictions, packets, Min(|predictions|, |packets|));
  }

  /** A packet missing a feature key aborts the batch with that `KeyError`,
      before the classifier is consulted, and no alert is returned. */
  lemma AnalyzeRejectsIncompletePacket(classify: Matrix -> Result<Probabilities>, t: TrafficData, i: nat)
    requires t.packets.Some? && i < |t.packets.value| && !HasFeatureKeys(t.packets.value[i])
    ensures ExtractedFeatures(t).Failure?
    ensures Analyze(classify, t) == Failure(ExtractedFeatures(t).error)
    ensures Analyze(classify, t).error.MissingKey? && Analyze(classify, t).error.key in FeatureKeys
  {
    var packets := t.packets.value;
    FeaturesSucceedIff(packets, |packets|);
    FeaturesFailOnFirstIncomplete(packets, |packets|);
  }

  /** An empty batch yields no alerts when the classifier accepts the empty matrix. */
  lemma AnalyzeEmptyBatch(classify: Matrix -> Result<Probabilities>, t: TrafficData)
    requires t.packets == Some([]) && classify([]).Success?
    ensures Analyze(classify, t) == Success([])
  {
  }

  /** With a well-shaped classifier every packet is paired with its own
      prediction, and the alerts are one per qualifying packet, in batch order,
      copying that packet's fields. */
  lemma AnalyzeCorrelates(classify: Matrix -> Result<Probabilities>, t: TrafficData)
    requires WellShaped(classify)
    requires Analyze(classify, t).Success?
    ensures t.packets.Some? && ExtractedFeatures(t).Success? && classify(ExtractedFeatures(t).value).Success?
    ensures var packets, predictions := t.packets.value, classify(ExtractedFeatures(t).value).value;
      var alerts, idx := Analyze(classify, t).value, Qualifying(predictions, |packets|);
      |predictions| == |packets| && |alerts| == |idx| &&
      forall k :: 0 <= k < |alerts| ==>
        idx[k] < |packets| && Malicious(predictions[idx[k]]) &&
        alerts[k].confidence == predictions[idx[k]][1] &&
        HasAlertKeys(packets[idx[k]]) &&
        alerts[k].source == packets[idx[k]][SourceKey] &&
        alerts[k].destination == packets[idx[k]][DestinationKey] &&
        alerts[k].protocol == packets[idx[k]][ProtocolKey]
  {
    var packets := t.packets.value;
    var features := ExtractedFeatures(t).value;
    var predictions := classify(features).value;
    assert |features| == |packets|;
    AlertsMatchQualifyingPackets(predictions, packets, |packets|);
  }

  /** With a well-shaped classifier that accepts the features, `pred[1]` never
      raises: the batch fails only if a qualifying packet lacks an alert field. */
  lemma AnalyzeSucceedsIff(classify: Matrix -> Result<Probabilities>, t: TrafficData)
    requires WellShaped(classify)
    requires ExtractedFeatures(t).Success? && classify(ExtractedFeatures(t).value).Success?
    ensures t.packets.Some?
    ensures var packets, predictions := t.packets.value, classify(ExtractedFeatures(t).value).value;
      |predictions| == |packets| &&
      (Analyze(classify, t).Success? <==>
        forall i :: 0 <= i < |packets| ==> Malicious(predictions[i]) ==> HasAlertKeys(packets[i]))
  {
    var packets := t.packets.value;
    var features := ExtractedFeatures(t).value;
    var predictions := classify(features).value;
    assert |features| == |packets|;
    AlertsSucceedIff(predictions, packets, |packets|);
  }

  /** The two-packet example: a packet scored 0.95 raises one alert copying
      its fields; a packet scored 0.10 raises none. */
  lemma TwoPacketScenario(classify: Matrix -> Result<Probabilities>)
    requires classify([[Num(1500.0), Num(6.0), Num(443.0), Num(0.1)], [Num(64.0), Num(1.0), Num(0.0), Num(5.0)]])
          == Success([[0.05, 0.95], [0.90, 0.10]])
    ensures
      var a: Packet := map[SizeKey := Num(1500.0), ProtocolKey := Num(6.0), PortKey := Num(443.0),
                           FrequencyKey := Num(0.1), SourceKey := Text("10.0.0.1"), DestinationKey := Text("10.0.0.2")];
      var b: Packet := map[SizeKey := Num(64.0), ProtocolKey := Num(1.0), PortKey := Num(0.0),
                           FrequencyKey := Num(5.0), SourceKey := Text("10.0.0.3"), DestinationKey := Text("10.0.0.4")];
      Analyze(classify, TrafficData(Some([a, b])))
        == Success([Alert(AnomalyType, 0.95, Text("10.0.0.1"), Text("10.0.0.2"), Num(6.0))])
  {
    var a: Packet := map[SizeKey := Num(1500.0), ProtocolKey := Num(6.0), PortKey := Num(443.0),
                         FrequencyKey := Num(0.1), SourceKey := Text("10.0.0.1"), DestinationKey := Text("10.0.0.2")];
    var b: Packet := map[SizeKey := Num(64.0), ProtocolKey := Num(1.0), PortKey := Num(0.0),
                         FrequencyKey := Num(5.0), SourceKey := Text("10.0.0.3"), DestinationKey := Text("10.0.0.4")];
    var rowA, rowB := [Num(1500.0), Num(6.0), Num(443.0), Num(0.1)], [Num(64.0), Num(1.0), Num(0.0), Num(5.0)];
    var predictions: Probabilities := [[0.05, 0.95], [0.90, 0.10]];
    assert FeatureRow(a) == Success(rowA);
    assert FeatureRow(b) == Success(rowB);
    var packets := [a, b];
    assert packets[0] == a && packets[1] == b;
    assert FeaturesUpTo(packets, 0) == Success([]);
    assert FeaturesUpTo(packets, 1).value == [rowA];
    assert FeaturesUpTo(packets, 2).value == [rowA] + [rowB] == [rowA, rowB];
    var alert := Alert(AnomalyType, 0.95, Text("10.0.0.1"), Text("10.0.0.2"), Num(6.0));
    assert AlertFor(predictions[0], a) == Success(Some(alert));
    assert AlertFor(predictions[1], b) == Success(None);
    assert AlertsUpTo(predictions, packets, 0) == Success([]);
    assert AlertsUpTo(predictions, packets, 1).value == [alert];
    assert AlertsUpTo(predictions, packets, 2).value == [alert];
  }
}
