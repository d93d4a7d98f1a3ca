/** The rows of the statistics database and the collection helpers its statements share. */
module Tables {

  datatype Option<+T> = None | Some(value: T)

  /** The normalised (domain, record type) pair results and overrides are keyed by. */
  datatype Subject = Subject(domain: string, recordType: string)

  /** Materialised sums of a round. The histogram maps a rounded-up latency in
      milliseconds to the number of results that fell into it. */
  datatype Aggregate = Aggregate(
    samples: nat,
    received: nat,
    successes: nat,
    latencyCount: nat,
    latencySum: real,
    pollution: nat,
    histogram: multiset<int>)

  /** A row of `rounds`, joined with its `latency_buckets`. Times are in milliseconds. */
  datatype Round = Round(
    id: nat,
    server: nat,
    started: int,
    finished: int,
    nextDue: int,
    coveredUntil: int,
    auxiliary: bool,
    agg: Aggregate)

  function Min(a: int, b: int): int {
    if a <= b then a else b
  }

  function Max(a: int, b: int): int {
    if a <= b then b else a
  }
}
