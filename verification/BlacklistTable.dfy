/**
 Rows of the blacklist table and what the collector, the application and the daily jobs make of them: two upserts,
 a manual block, the cleanup, the expiry service. The other writers are in BlacklistHistory. Dates are calendar
 dates; a missing date behaves as SQL NULL: no comparison with it is true. One date stands for the application's
 today and the database's.
 */
module BlacklistTable {
  import opened Common

  // ------------------------------------------------------------------------------------- calendar

  datatype Date = Date(year: int, month: int, day: int)

  predicate Leap(year: int) {
    year % 4 == 0 && (year % 100 != 0 || year % 400 == 0)
  }

  function DaysIn(year: int, month: int): int {
    if month == 2 then (if Leap(year) then 29 else 28)
    else if month == 4 || month == 6 || month == 9 || month == 11 then 30
    else 31
  }

  predicate OnCalendar(d: Date) {
    1 <= d.month <= 12 && 1 <= d.day <= DaysIn(d.year, d.month)
  }

  predicate Before(a: Date, b: Date) {
    a.year < b.year || (a.year == b.year && (a.month < b.month || (a.month == b.month && a.day < b.day)))
  }

  predicate NotAfter(a: Date, b: Date) {
    a == b || Before(a, b)
  }

  /** The date minus an interval of three months: the same day, or the last one the month has. */
  function ThreeMonthsBefore(d: Date): Date {
    var y := if d.month > 3 then d.year else d.year - 1;
    var m := if d.month > 3 then d.month - 3 else d.month + 9;
    Date(y, m, if d.day <= DaysIn(y, m) then d.day else DaysIn(y, m))
  }

  lemma ThreeMonthsBeforeIsMonotone(a: Date, b: Date)
    requires OnCalendar(a) && OnCalendar(b) && NotAfter(a, b)
    ensures NotAfter(ThreeMonthsBefore(a), ThreeMonthsBefore(b))
    ensures OnCalendar(ThreeMonthsBefore(a)) && Before(ThreeMonthsBefore(a), a)
  {
  }

  predicate LeapYear(year: int) {
    year % 400 == 0 || (year % 4 == 0 && year % 100 != 0)
  }

  lemma MonthLengths(year: int, month: int)
    requires 1 <= month <= 12
    ensures DaysIn(year, month)
      == [31, if LeapYear(year) then 29 else 28, 31, 30, 31, 30, 31, 31, 30, 31, 30, 31][month - 1]
  {
  }

  /** Three months earlier, on the same day or on the last one that month has in that year. */
  lemma ThreeMonthsBeforeIs(d: Date)
    requires OnCalendar(d)
    ensures var limit := ThreeMonthsBefore(d);
      && 1 <= limit.month <= 12 && limit.year * 12 + limit.month == d.year * 12 + d.month - 3
      && var last := DaysIn(limit.year, limit.month);
      limit.day <= d.day && limit.day <= last && (limit.day == d.day || limit.day == last)
  {
  }

  predicate Past(d: Option<Date>, today: Date) {
    d.Some? && Before(d.value, today)
  }

  predicate FromTodayOn(d: Option<Date>, today: Date) {
    d.Some? && !Before(d.value, today)
  }

  /** On the calendar dates compare as their days do, and a missing one with none. */
  lemma DatesCompare(d: Option<Date>, today: Date)
    requires OnCalendar(today) && (d.Some? ==> OnCalendar(d.value))
    ensures d.None? ==> !Past(d, today)
    ensures d.Some? ==> (Past(d, today) <==>
      d.value.year * 372 + d.value.month * 31 + d.value.day < today.year * 372 + today.month * 31 + today.day)
    ensures FromTodayOn(d, today) <==> d.Some? && !Past(d, today)
    ensures d.Some? ==> (NotAfter(today, d.value) <==> !Past(d, today))
  {
  }

  function Coalesce<T>(a: Option<T>, b: Option<T>): Option<T> {
    if a.Some? then a else b
  }

  // ----------------------------------------------------------------------------- rows and upserts

  type Key = (string, string)

  datatype Row = Row(
    reason: string, confidence: int, detections: int, lastSeen: int, active: bool,
    detected: Option<Date>, removal: Option<Date>, country: Option<string>, raw: string, dataSource: Option<string>)

  /** A collected item, with its dates parsed and its defaults filled in. */
  datatype Item = Item(ip: string, source: string, row: Row)

  function KeyOf(item: Item): Key {
    (item.ip, item.source)
  }

  type Table = map<Key, Row>

  /** The values the collector sends: a removal date in the past overrides the item's own activity. */
  function Excluded(item: Item, today: Date): Row {
    item.row.(active := if Past(item.row.removal, today) then false else item.row.active)
  }

  function CollectorUpdate(kept: Row, sent: Row, today: Date): Row {
    var removal := Coalesce(sent.removal, kept.removal);
    kept.(detections := kept.detections + 1, lastSeen := sent.lastSeen, reason := sent.reason, removal := removal,
         active := if Past(removal, today) then false else sent.active,
         country := Coalesce(sent.country, kept.country), raw := sent.raw,
         dataSource := Coalesce(kept.dataSource, sent.dataSource))
  }

  /** `_fallback_batch_insert`, one row. */
  function CollectorUpsert(t: Table, item: Item, today: Date): Table {
    var sent := Excluded(item, today);
    t[KeyOf(item) := if KeyOf(item) in t then CollectorUpdate(t[KeyOf(item)], sent, today) else sent]
  }

  /** What a collected item leaves in its row, new or found. */
  predicate Collected(found: Option<Row>, item: Item, r: Row, today: Date) {
    && r.reason == item.row.reason && r.lastSeen == item.row.lastSeen && r.raw == item.row.raw
    && (r.active <==> item.row.active && !Past(r.removal, today))
    && match found
       case None =>
         && r.detections == item.row.detections && r.confidence == item.row.confidence
         && r.detected == item.row.detected && r.removal == item.row.removal
         && r.country == item.row.country && r.dataSource == item.row.dataSource
       case Some(was) =>
         && r.detections == was.detections + 1 && r.confidence == was.confidence && r.detected == was.detected
         && r.removal == (if item.row.removal.Some? then item.row.removal else was.removal)
         && r.country == (if item.row.country.Some? then item.row.country else was.country)
         && r.dataSource == (if was.dataSource.Some? then was.dataSource else item.row.dataSource)
  }

  function Found(t: Table, k: Key): Option<Row> {
    if k in t then Some(t[k]) else None
  }

  lemma CollectorUpsertCollects(t: Table, item: Item, today: Date)
    ensures var after, k := CollectorUpsert(t, item, today), (item.ip, item.source);
      after.Keys == t.Keys + {k} && Collected(Found(t, k), item, after[k], today)
    ensures forall j :: j in t && j != (item.ip, item.source) ==> CollectorUpsert(t, item, today)[j] == t[j]
  {
  }

  /** `save_blacklist_ip` of the application: here a removal date of today already deactivates. */
  function AppUpsert(t: Table, item: Item, today: Date): Table {
    t[KeyOf(item) :=
      if KeyOf(item) in t then
        var kept := t[KeyOf(item)];
        var removal := Coalesce(item.row.removal, kept.removal);
        kept.(detections := kept.detections + 1, lastSeen := item.row.lastSeen, removal := removal,
             active := if removal.Some? && NotAfter(removal.value, today) then false else item.row.active,
             raw := item.row.raw)
      else item.row]
  }

  // ------------------------------------------------------------------------------- cleanup, expiry

  function DeactivateExpired(r: Row, today: Date): Row {
    if r.active && Past(r.removal, today) then r.(active := false) else r
  }

  function DeactivateOld(r: Row, today: Date): Row {
    if r.active && Past(r.detected, ThreeMonthsBefore(today)) && (r.removal.None? || Past(r.removal, today))
    then r.(active := false) else r
  }

  function Reactivate(r: Row, today: Date): Row {
    if !r.active && FromTodayOn(r.removal, today) then r.(active := true) else r
  }

  /** The three updates, in their order. */
  function CleanRow(r: Row, today: Date): Row {
    Reactivate(DeactivateOld(DeactivateExpired(r, today), today), today)
  }

  function Clean(t: Table, today: Date): Table {
    map k | k in t :: CleanRow(t[k], today)
  }

  function Expire(t: Table, today: Date): Table {
    map k | k in t :: DeactivateExpired(t[k], today)
  }

  /**
   Closed form: after the cleanup a row is active exactly when its removal date is today or later, or it has none,
   was active, and is not older than three months. Nothing else changes.
   */
  lemma CleanupClosedForm(t: Table, today: Date, k: Key)
    requires k in t
    ensures Clean(t, today).Keys == t.Keys
    ensures Clean(t, today)[k].active <==>
      || FromTodayOn(t[k].removal, today)
      || (t[k].removal.None? && t[k].active && !Past(t[k].detected, ThreeMonthsBefore(today)))
    ensures Clean(t, today)[k] == t[k].(active := Clean(t, today)[k].active)
  {
  }

  ghost predicate Absorbs(earlier: Date, later: Date) {
    forall t: Table :: Clean(Clean(t, earlier), later) == Clean(t, later)
  }

  lemma AbsorbedWhenLimitsRise(t: Table, earlier: Date, later: Date)
    requires NotAfter(ThreeMonthsBefore(earlier), ThreeMonthsBefore(later))
    ensures Clean(Clean(t, earlier), later) == Clean(t, later)
  {
    forall k | k in t ensures Clean(Clean(t, earlier), later)[k] == Clean(t, later)[k] {
      RowAbsorbed(t[k], earlier, later);
    }
  }

  lemma RowAbsorbed(r: Row, earlier: Date, later: Date)
    requires NotAfter(ThreeMonthsBefore(earlier), ThreeMonthsBefore(later))
    ensures CleanRow(CleanRow(r, earlier), later) == CleanRow(r, later)
  {
    hide ThreeMonthsBefore;
  }

  /** An earlier cleanup leaves no trace after a later one exactly when the later three-month limit is not lower. */
  lemma CleanupAbsorbsIff(earlier: Date, later: Date)
    ensures Absorbs(earlier, later) <==> NotAfter(ThreeMonthsBefore(earlier), ThreeMonthsBefore(later))
  {
    if NotAfter(ThreeMonthsBefore(earlier), ThreeMonthsBefore(later)) {
      hide Clean, ThreeMonthsBefore, NotAfter;
      forall t: Table ensures Clean(Clean(t, earlier), later) == Clean(t, later) {
        AbsorbedWhenLimitsRise(t, earlier, later);
      }
    } else {
      var t := RetiredByTheEarlier(earlier, later);
    }
  }

  /** A row found on the later limit, with the earlier limit after it. */
  lemma RetiredByTheEarlier(earlier: Date, later: Date) returns (t: Table)
    requires !NotAfter(ThreeMonthsBefore(earlier), ThreeMonthsBefore(later))
    ensures Clean(Clean(t, earlier), later) != Clean(t, later)
  {
    hide ThreeMonthsBefore;
    var k := ("198.51.100.7", "REGTECH");
    t := map[k := Row("", 0, 1, 0, true, Some(ThreeMonthsBefore(later)), None, None, "", None)];
    CleanupClosedForm(t, later, k);
    CleanupClosedForm(t, earlier, k);
    CleanupClosedForm(Clean(t, earlier), later, k);
    hide Clean;
  }

  /** So on calendar days in order, cleaning on both is cleaning on the second. */
  lemma LaterCleanupAbsorbsEarlier(t: Table, earlier: Date, later: Date)
    requires OnCalendar(earlier) && OnCalendar(later) && NotAfter(earlier, later)
    ensures Clean(Clean(t, earlier), later) == Clean(t, later)
  {
    ThreeMonthsBeforeIsMonotone(earlier, later);
    CleanupAbsorbsIff(earlier, later);
    assert Absorbs(earlier, later);
  }

  /** A pass of the expiry service on any day, past or future, changes nothing after a cleanup. */
  lemma CleanupAbsorbsExpiry(t: Table, expiryDay: Date, today: Date)
    ensures Clean(Expire(t, expiryDay), today) == Clean(t, today)
  {
    forall k | k in t ensures Clean(Expire(t, expiryDay), today)[k] == Clean(t, today)[k] {
      CleanupClosedForm(t, today, k);
      CleanupClosedForm(Expire(t, expiryDay), today, k);
    }
  }

  // ------------------------------------------------------------------------- the two rules together

  /**
   For a row that exists the two rules disagree on its activity exactly when its effective removal date is today
   and the item itself is active; they always agree on the removal date.
   */
  lemma UpsertsDisagreeExactlyToday(t: Table, item: Item, today: Date)
    requires KeyOf(item) in t
    ensures var c, a := CollectorUpsert(t, item, today)[KeyOf(item)], AppUpsert(t, item, today)[KeyOf(item)];
      && c.removal == a.removal == Coalesce(item.row.removal, t[KeyOf(item)].removal)
      && (c.active != a.active <==> c.removal == Some(today) && item.row.active)
  {
  }

  /** Whether the row existed or not, a cleanup the same day makes the activity of every row agree. */
  lemma CleanupReconcilesUpserts(t: Table, item: Item, today: Date, k: Key)
    requires k in t || k == KeyOf(item)
    ensures k in CollectorUpsert(t, item, today) && k in AppUpsert(t, item, today)
    ensures Clean(CollectorUpsert(t, item, today), today)[k].active == Clean(AppUpsert(t, item, today), today)[k].active
  {
    CleanupClosedForm(CollectorUpsert(t, item, today), today, k);
    CleanupClosedForm(AppUpsert(t, item, today), today, k);
  }

  /** Detecting an address again without a removal date never revives a row whose kept date has passed. */
  lemma RedetectionNeverRevivesExpired(t: Table, item: Item, today: Date)
    requires KeyOf(item) in t && item.row.removal.None? && Past(t[KeyOf(item)].removal, today)
    ensures !CollectorUpsert(t, item, today)[KeyOf(item)].active && !AppUpsert(t, item, today)[KeyOf(item)].active
    ensures CollectorUpsert(t, item, today)[KeyOf(item)].removal == t[KeyOf(item)].removal
  {
  }

  /**
   Neither rule refreshes the detection date. An address without a removal date that was first seen more than
   three months ago is therefore switched off by every cleanup, however often it is detected again before.
   */
  lemma RedetectionDoesNotRefreshAge(t: Table, item: Item, today: Date)
    requires KeyOf(item) in t && item.row.removal.None? && t[KeyOf(item)].removal.None?
    requires Past(t[KeyOf(item)].detected, ThreeMonthsBefore(today))
    ensures !Clean(CollectorUpsert(t, item, today), today)[KeyOf(item)].active
    ensures !Clean(AppUpsert(t, item, today), today)[KeyOf(item)].active
  {
    CleanupClosedForm(CollectorUpsert(t, item, today), today, KeyOf(item));
    CleanupClosedForm(AppUpsert(t, item, today), today, KeyOf(item));
  }

  /** `insert_blacklist`: a manual block sets the row active and keeps its dates; a new row has the table's defaults. */
  function ManualBlock(t: Table, k: Key, reason: string, confidence: int, now: int): Table {
    t[k := if k in t then t[k].(reason := reason, confidence := confidence, active := true)
           else Row(reason, confidence, 1, now, true, None, None, None, "{}", Some("REGTECH"))]
  }

  lemma ManualBlockWrites(t: Table, k: Key, reason: string, confidence: int, now: int)
    ensures var after := ManualBlock(t, k, reason, confidence, now);
      && after.Keys == t.Keys + {k} && (forall j :: j in t && j != k ==> after[j] == t[j])
      && after[k].reason == reason && after[k].confidence == confidence && after[k].active
      && (k in t ==> after[k] == t[k].(reason := reason, confidence := confidence, active := true))
      && (k !in t ==> after[k].removal.None? && after[k].detected.None?)
      && (k !in t ==> after[k].detections == 1 && after[k].lastSeen == now && after[k].dataSource == Some("REGTECH"))
  {
  }

  /** A manual block outlives the next cleanup exactly when its kept dates would not have ended it. */
  lemma ManualBlockSurvivesIff(t: Table, k: Key, reason: string, confidence: int, now: int, today: Date)
    ensures k in ManualBlock(t, k, reason, confidence, now) && ManualBlock(t, k, reason, confidence, now)[k].active
    ensures Clean(ManualBlock(t, k, reason, confidence, now), today)[k].active <==>
      k !in t || FromTodayOn(t[k].removal, today)
      || (t[k].removal.None? && !Past(t[k].detected, ThreeMonthsBefore(today)))
  {
    CleanupClosedForm(ManualBlock(t, k, reason, confidence, now), today, k);
  }
}
