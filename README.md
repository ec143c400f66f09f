# Network traffic detector — Dafny model

This project models the packet-to-alert pipeline of `NetworkDetector`
(`backend/services/detectors/network_detector.py`), a security-monitoring
component that scores a batch of captured packets with a probabilistic
classifier and raises an alert for every packet whose malicious-class
probability is strictly above 0.8.

The pipeline has three steps:

- **Feature extraction** (`_extract_features`) turns each packet record into
  the row `[size, protocol, port, frequency]`, one row per packet, in input
  order. A packet without one of those keys raises `KeyError` and aborts the
  batch.
- **Classification** calls the classifier's `predict_proba` on the feature
  matrix. Here the classifier is a function parameter
  `Matrix -> Result<Probabilities>`. It may fail. Its shape promise is the
  predicate `WellShaped`: one prediction row per feature row, each with at
  least two columns (column 1 is the malicious class).
- **Alert generation** (`_generate_alerts`) walks `zip(predictions, packets)`.
  It raises `IndexError` on a prediction row without column 1. When
  `pred[1] > 0.8` it emits
  `{type: "NETWORK_ANOMALY", confidence: pred[1], source, destination, protocol}`,
  taking the three fields from the packet at the same index. A missing field
  raises `KeyError`.

Layout:

- `records.dfy` (module `Records`): packet values, packets as
  `map<string, Value>`, the traffic batch, the alert record, the error kinds,
  and the constants (key names, `NETWORK_ANOMALY`, threshold 0.8).
- `network_detector.dfy` (module `NetworkDetector`): three parts.
  - Specification functions defined on prefixes of the input: `FeaturesUpTo`,
    `AlertsUpTo`, and the composition `Analyze`.
  - Methods with `while` loops that mirror the source's loops. Each is proved
    equal to its specification function: `ExtractFeatures`, `GenerateAlerts`,
    `AnalyzeTraffic`.
  - Lemmas stating what the pipeline promises.

Python exceptions become `Result` values. An exception raised inside a loop
aborts it; the model returns the error of the first packet that raises. Since
`AnalyzeTraffic` is proved equal to the function `Analyze`, the same batch and
classifier always give the same result.

Where the code differs from the documented intent (a schema error for an
incomplete packet, an empty batch yielding no alerts), the model follows the
code:

- Missing keys raise `KeyError`, not a dedicated schema error. This includes a
  qualifying packet without `source` or `destination`, which aborts alert
  generation halfway through.
- Feature values are copied verbatim. A non-numeric value is not rejected by
  extraction; whether it is rejected is up to the classifier.
- On an empty batch, `np.array([])` is one-dimensional, and scikit-learn's
  `predict_proba` rejects such an array. The model leaves this to the
  classifier parameter. `AnalyzeEmptyBatch` says there are no alerts when the
  classifier accepts the empty matrix.
- Nothing in this file fits the classifier. Unless a caller fits
  `classifier`, every `predict_proba` call raises `NotFittedError`. That case
  is a classifier that returns `Failure(ClassifierError(...))`.

## Model

| member | source | states |
|---|---|---|
| `NetworkDetector.FeatureRow` | backend/services/detectors/network_detector.py:25-30 | a row is built exactly when the packet has size, protocol, port and frequency; it has 4 entries equal to those fields in that order; otherwise the error names the first missing key in that order |
| `NetworkDetector.FeaturesUpTo` | backend/services/detectors/network_detector.py:23-31 | a successful extraction of n packets has exactly n rows |
| `NetworkDetector.FeaturesFailurePersists` | backend/services/detectors/network_detector.py:24-30 | once a packet raises, the whole extraction fails with that same error and returns no rows |
| `NetworkDetector.FeaturesRowwise` | backend/services/detectors/network_detector.py:24-30 | row i is `[size, protocol, port, frequency]` of packet i, so no packet is reordered or dropped |
| `NetworkDetector.FeaturesSucceedIff` | backend/services/detectors/network_detector.py:24-29 | extraction succeeds if and only if every packet carries all four feature keys |
| `NetworkDetector.FeaturesFailOnFirstIncomplete` | backend/services/detectors/network_detector.py:24-29 | a failed extraction reports the row error of the first incomplete packet, and every earlier packet was complete |
| `NetworkDetector.ExtractFeatures` | backend/services/detectors/network_detector.py:21-31 | the appending loop returns exactly the specified extraction result, including `KeyError('packets')` and the first missing feature key |
| `NetworkDetector.AlertRecord` | backend/services/detectors/network_detector.py:38-44 | the alert is built exactly when source, destination and protocol are present; it has type NETWORK_ANOMALY, confidence `pred[1]` and those three fields; otherwise the error names the first missing of them |
| `NetworkDetector.AlertFor` | backend/services/detectors/network_detector.py:37-44 | a row without column 1 raises IndexError; a qualifying packet without an alert field raises the KeyError of the record lookup; on success an alert is emitted if and only if `pred[1] > 0.8`, and it is the record for that packet |
| `NetworkDetector.AlertsUpTo` | backend/services/detectors/network_detector.py:35-45 | generation over n zipped pairs yields at most n alerts |
| `NetworkDetector.Qualifying` | backend/services/detectors/network_detector.py:36-37 | the qualifying indices below n are strictly increasing, and an index is in the list if and only if its prediction exceeds 0.8 |
| `NetworkDetector.AlertsFailurePersists` | backend/services/detectors/network_detector.py:36-44 | once a pair raises, the whole generation fails with that same error and returns no alerts |
| `NetworkDetector.AlertsMatchQualifyingPackets` | backend/services/detectors/network_detector.py:36-44 | alert k is the record built from the prediction and the packet at the k-th qualifying index: one alert per qualifying packet, in batch order |
| `NetworkDetector.AlertsAboveThreshold` | backend/services/detectors/network_detector.py:37-40 | every alert has type NETWORK_ANOMALY and confidence strictly above 0.8 |
| `NetworkDetector.AlertsSucceedIff` | backend/services/detectors/network_detector.py:36-44 | generation succeeds if and only if every zipped prediction row has column 1 and every qualifying packet has source, destination and protocol |
| `NetworkDetector.AlertsFailOnFirstBadPair` | backend/services/detectors/network_detector.py:36-44 | a failed generation reports the error of the first pair that raises, and every earlier pair succeeded |
| `NetworkDetector.GenerateAlerts` | backend/services/detectors/network_detector.py:33-45 | the zip loop returns exactly the specified generation result, stopping at the shorter of predictions and packets |
| `NetworkDetector.ThresholdIsExclusive` | backend/services/detectors/network_detector.py:37 | a prediction row of any width with `pred[1] <= 0.8`, exactly 0.8 included, emits nothing and raises nothing, whatever fields the packet has |
| `NetworkDetector.AnalyzeTraffic` | backend/services/detectors/network_detector.py:15-19 | the method computes extraction, then classification, then generation; the first error aborts the batch |
| `NetworkDetector.AnalyzeBounded` | backend/services/detectors/network_detector.py:17-19 | for any classifier, a successful analysis has at most one alert per packet, each NETWORK_ANOMALY with confidence above 0.8 |
| `NetworkDetector.AnalyzeRejectsIncompletePacket` | backend/services/detectors/network_detector.py:17-29 | a packet without a feature key makes the whole batch fail with a missing feature key, whatever the classifier |
| `NetworkDetector.AnalyzeEmptyBatch` | backend/services/detectors/network_detector.py:15-19 | an empty batch yields an empty alert list when the classifier accepts the empty matrix |
| `NetworkDetector.AnalyzeCorrelates` | backend/services/detectors/network_detector.py:17-44 | with a well-shaped classifier, alert k copies confidence, source, destination and protocol from the k-th qualifying packet and its own prediction |
| `NetworkDetector.AnalyzeSucceedsIff` | backend/services/detectors/network_detector.py:18-44 | with a well-shaped classifier that accepts the features, analysis succeeds if and only if every qualifying packet has the alert fields |
| `NetworkDetector.TwoPacketScenario` | backend/services/detectors/network_detector.py:15-45 | packets scored 0.95 and 0.10 yield exactly one alert, for the first packet, with confidence 0.95 and protocol 6 |

## Left out

- The scikit-learn `RandomForestClassifier` is not modelled: its construction (100 trees, depth 10, seed 42), its training and its `predict_proba`. It is foreign library code. It is a function parameter with the shape predicate `WellShaped`.
- The `np.array` conversion of the feature list is not modelled. Rows stay sequences of packet values.
- The `float(...)` conversion of the confidence is not modelled. Probabilities are Dafny `real`s, not IEEE doubles, so 0.8 is exact. Only the comparison with 0.8 matters.
- The `async` nature of `analyze_traffic` is not modelled. There is no internal concurrency.
- The `patterns` field and `NetworkPattern` are not modelled. The field is never read or updated, and `NetworkPattern` is not part of this model.
- `src/App.tsx` (React routing) is not modelled. It has no computational logic.
- Python's dynamic values are reduced to `Num` (int and float) and `Text`. `traffic_data` is reduced to its optional `packets` entry, a sequence of packets.
- AnalyzeBounded: does not state the upper bound 1.0 on confidence, because that bound depends on the classifier's probabilities, and the code does not check it.
