/** The statistics reply: five numbers describing the transactions of the
    last 60 seconds. The datatype's constructor is the DTO's constructor:
    each field holds the argument of the same name. */
module StatisticsDtos {

  datatype StatisticsDto = StatisticsDto(count: nat, sum: real, avg: real, min: real, max: real)

  /** The reply for a window with no transactions. */
  function Empty(): (d: StatisticsDto)
    ensures d.count == 0
    ensures d.sum == 0.0 && d.avg == 0.0 && d.min == 0.0 && d.max == 0.0
  {
    StatisticsDto(0, 0.0, 0.0, 0.0, 0.0)
  }
}
