/**
 * The `TradingData` table (analytics/models.py): one simulated trade per
 * row. Dates are day numbers; `duration` and `return_percentage` are exact
 * reals instead of floats. The database indexes are not modelled.
 */
module TradingModel {

  datatype TradingData = TradingData(
    symbol: string,
    company: string,
    sector: string,
    cooldownSetting: int,
    holdingWeeks: int,
    mcapCategory: string,
    breakoutDate: int,
    duration: real,
    returnPercentage: real
  )
}
