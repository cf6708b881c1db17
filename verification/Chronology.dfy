/** `published_at` after parsing, and the order used to find the earliest article. */
module Chronology {
  import opened Options

  /** A parsed instant, counted from the minimum timestamp. Parsing itself is not modelled:
      `None` stands for a null, empty or unparseable value. */
  type Instant = nat

  const MIN_TIMESTAMP: Instant := 0

  function ParseTimestamp(published: Option<Instant>): Instant {
    published.GetOr(MIN_TIMESTAMP)
  }

  datatype SortKey = SortKey(dateless: bool, at: Instant)

  function ChronologicalSortKey(published: Option<Instant>): SortKey {
    var parsed := ParseTimestamp(published);
    SortKey(parsed == MIN_TIMESTAMP, parsed)
  }

  /** Tuple order, `false` before `true`. */
  predicate KeyLt(a: SortKey, b: SortKey) {
    (!a.dateless && b.dateless) || (a.dateless == b.dateless && a.at < b.at)
  }

  predicate KeyLe(a: SortKey, b: SortKey) {
    a == b || KeyLt(a, b)
  }

  predicate HasDate(published: Option<Instant>) {
    published.Some? && published.value != MIN_TIMESTAMP
  }
}
