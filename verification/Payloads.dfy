/** The run payload that is cached, filtered and served. */
module Payloads {
  import opened Wrappers
  import opened FlagEngine

  /** One chart's mapping as it travels on a payload. */
  datatype ChartSpec = ChartSpec(
    id: string, name: string, chartType: string,
    xField: Option<string>, yField: Option<string>, seriesField: Option<string>,
    surgeThresholdPct: string, warnings: seq<string>)

  datatype FlaggedEntry = FlaggedEntry(index: nat, ruleIds: seq<string>, fingerprint: string)

  /** `dismissedCount` is present only on a payload that had rows filtered out. */
  datatype Flags = Flags(
    rows: seq<FlaggedEntry>, flaggedCount: nat, dismissedCount: Option<nat>,
    rules: seq<RuleHit>, warnings: seq<Warning>)

  datatype Payload = Payload(
    queryId: string, executedAt: int, durationMs: int, rowCount: nat, truncated: bool,
    dataHash: string, columns: seq<string>, rows: seq<Row>, charts: seq<ChartSpec>, flags: Flags,
    pollIntervalMs: nat)

  /** A poll answer that carries a payload. */
  datatype Body = Body(payload: Payload, changed: bool, fromCache: bool)
}
