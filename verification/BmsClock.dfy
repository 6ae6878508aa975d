/** When a BMS report is too old to be relied on (bms.c:42, UTILS_AGE_S in util/utils_sys.h). */
module BmsClock {
  const MAX_AGE := 20000   // MAX_CAN_AGE_SEC in system ticks of 0.1 ms

  predicate Stale(since: nat, now: nat) { now - since > MAX_AGE }
}
