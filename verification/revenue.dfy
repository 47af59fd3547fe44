/** The revenue routes (`/api/revenue`): read a day's revenue record; a day
    without a file reads as an empty record for that day. */
module Revenue {
  import opened Common
  import opened Store

  /** GET `/api/revenue?date=`. */
  function ForDate(revenue: map<string, RevenueRecord>, date: Option<string>): (r: Result<RevenueRecord>)
    ensures !Given(date) ==> r.Err? && r.error.status == 400
    ensures Given(date) && date.value in revenue ==> r == Ok(revenue[date.value])
    ensures Given(date) && date.value !in revenue ==> r == Ok(RevenueRecord(date.value, [], 0.0))
  {
    if !Given(date) then Err(BadRequest("Date is required"))
    else Ok(RevenueOrEmpty(revenue, date.value))
  }

  /** GET `/api/revenue/today`: the same lookup keyed by today's UTC date
      (`new Date().toISOString().split('T')[0]`), which the caller passes in. */
  function Today(revenue: map<string, RevenueRecord>, today: string): (r: RevenueRecord)
    ensures today in revenue ==> r == revenue[today]
    ensures today !in revenue ==> r == RevenueRecord(today, [], 0.0)
  {
    RevenueOrEmpty(revenue, today)
  }

  /** For a non-empty date key, the today route answers what the by-date route answers. */
  lemma TodayAgreesWithForDate(revenue: map<string, RevenueRecord>, today: string)
    requires today != ""
    ensures ForDate(revenue, Some(today)) == Ok(Today(revenue, today))
  {
  }
}
