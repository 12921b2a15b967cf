/** A tariff rate interval, shared by the TypeScript reconciliation engine
    (`RateInterval`: valueIncVat, fromMs, toMs) and by the Python clients
    (rate dicts with 'value_inc_vat', 'valid_from', 'valid_to'). */
module Rates {
  import opened Clock

  /** Unit price in pence per kWh (may be negative) valid on the half-open
      span [validFrom, validTo), both in UTC milliseconds. */
  datatype Rate = Rate(price: real, validFrom: int, validTo: int)

  /** Sort and selection keys. */
  function PriceOf(r: Rate): real {
    r.price
  }

  function StartOf(r: Rate): real {
    r.validFrom as real
  }

  /** The slot applies at instant `t`. */
  predicate Covers(r: Rate, t: int) {
    r.validFrom <= t < r.validTo
  }

  /** `slot['valid_from'].hour` */
  function StartHour(r: Rate): int {
    HourOf(r.validFrom)
  }

  /** `slot['valid_from'].date()` */
  function StartDay(r: Rate): int {
    DayOf(r.validFrom)
  }
}
