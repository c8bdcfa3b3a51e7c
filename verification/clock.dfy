/** What the pipeline reads from the wall clock, passed in instead of being read. */
module Clock {

  /** One reading of the current local time: Unix seconds (rounded down), the
      time-of-day in Go's Kitchen layout ("3:04PM"), and the "2006-01-02 15:04:05"
      layout shown on cards. */
  datatype Reading = Reading(unix: int, kitchen: string, stamp: string)
}
