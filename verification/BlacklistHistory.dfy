/**
 Whole histories of a row: any interleaving of everything that writes rows of the blacklist. Beside the writers of
 BlacklistTable these are a third upsert of collections, the ones by hand (blocking, relisting, expiring, editing,
 adding and removing), and what deletes rows: by number, all of them, beyond the number kept, or inactive and aged.
 */
module BlacklistHistory {
  import opened Common
  import opened BlacklistTable

  // -------------------------------------------------------------------------------- further writers

  /** `save_collection_data`: the only upsert that refreshes the detection date. */
  function PersistUpsert(t: Table, item: Item, today: Date): Table {
    t[KeyOf(item) :=
      if KeyOf(item) in t then
        var kept := t[KeyOf(item)];
        var removal := Coalesce(item.row.removal, kept.removal);
        kept.(detections := kept.detections + 1, lastSeen := item.row.lastSeen, reason := item.row.reason,
             country := Coalesce(item.row.country, kept.country),
             detected := Coalesce(item.row.detected, kept.detected), removal := removal,
             active := if Past(removal, today) then false else item.row.active, raw := item.row.raw)
      else item.row]
  }

  /** `upsert_blacklist_from_collector`: an existing row is only switched on. */
  function Relist(t: Table, item: Item): Table {
    t[KeyOf(item) := if KeyOf(item) in t then t[KeyOf(item)].(active := true)
                     else item.row.(active := true, removal := None)]
  }

  /** `deactivate_by_source`. */
  function SourceOff(t: Table, dataSource: string): Table {
    map k | k in t :: if t[k].dataSource == Some(dataSource) then t[k].(active := false) else t[k]
  }

  /** `manually_expire_ip`: an inactive row is refused. */
  function HandExpire(t: Table, k: Key, today: Date): Table {
    if k in t && t[k].active then t[k := t[k].(active := false, removal := Some(today))] else t
  }

  /** `create_blacklist` of the address editor: both dates and the flag are set, also to NULL. */
  function Create(t: Table, item: Item): Table {
    t[KeyOf(item) :=
      if KeyOf(item) in t then
        var kept := t[KeyOf(item)];
        kept.(reason := item.row.reason, dataSource := item.row.dataSource, confidence := item.row.confidence,
             detections := kept.detections + 1, active := item.row.active,
             country := Coalesce(item.row.country, kept.country), detected := item.row.detected,
             removal := item.row.removal, lastSeen := item.row.lastSeen)
      else item.row]
  }

  /** What `update_blacklist` is given of the columns that matter here; a date may be set to NULL. */
  datatype Change = Change(active: Option<bool>, detected: Option<Option<Date>>, removal: Option<Option<Date>>)

  function Changed(r: Row, c: Change): Row {
    r.(active := if c.active.Some? then c.active.value else r.active,
       detected := if c.detected.Some? then c.detected.value else r.detected,
       removal := if c.removal.Some? then c.removal.value else r.removal)
  }

  function Edit(t: Table, k: Key, c: Change): Table {
    if k in t then t[k := Changed(t[k], c)] else t
  }

  /** The batch operations: add rows that are new, remove an address under every source. */
  function BatchAdd(t: Table, item: Item): Table {
    if KeyOf(item) in t then t else t[KeyOf(item) := item.row.(active := true, removal := None)]
  }

  function BatchRemove(t: Table, ip: string): Table {
    map k | k in t && k.0 != ip :: t[k]
  }

  /** A row by its number, the reset of the database, and the rows beyond the newest million. */
  function Delete(t: Table, gone: set<Key>): Table {
    map k | k in t && k !in gone :: t[k]
  }

  predicate Purgeable(r: Row, limit: Date) {
    !r.active && (r.removal.None? || Past(r.removal, limit))
  }

  /** The second statement of the quality check: `aged` are the rows created before `limit`. The first is `Expire`. */
  function Purge(t: Table, aged: set<Key>, limit: Date): Table {
    map k | k in t && !(k in aged && Purgeable(t[k], limit)) :: t[k]
  }

  // What each of them leaves, in terms of what was found.

  /** Every other row stays as it is. */
  predicate OthersStay(t: Table, after: Table, k: Key) {
    after.Keys == t.Keys + {k} && forall j :: j in t && j != k ==> after[j] == t[j]
  }

  lemma UpsertsLeave(t: Table, item: Item, today: Date)
    requires OnCalendar(today) && (item.row.removal.Some? ==> OnCalendar(item.row.removal.value))
    requires forall k :: k in t && t[k].removal.Some? ==> OnCalendar(t[k].removal.value)
    ensures var k, after := (item.ip, item.source), PersistUpsert(t, item, today);
      && OthersStay(t, after, k) && (k !in t ==> after[k] == item.row)
      && (k in t ==>
            && after[k].removal == (if item.row.removal.Some? then item.row.removal else t[k].removal)
            && after[k].detected == (if item.row.detected.Some? then item.row.detected else t[k].detected)
            && (after[k].active <==> item.row.active && !Past(after[k].removal, today))
            && after[k].detections == t[k].detections + 1 && after[k].reason == item.row.reason)
    ensures var k, after := (item.ip, item.source), AppUpsert(t, item, today);
      && OthersStay(t, after, k) && (k !in t ==> after[k] == item.row)
      && (k in t ==>
            && after[k].removal == (if item.row.removal.Some? then item.row.removal else t[k].removal)
            && (after[k].active <==>
                  item.row.active && (after[k].removal.Some? ==> Before(today, after[k].removal.value)))
            && after[k].detections == t[k].detections + 1)
      && (k in t ==> after[k].detected == t[k].detected && after[k].reason == t[k].reason)
  {
  }

  lemma HandWorkLeaves(t: Table, item: Item, k: Key, c: Change, today: Date)
    ensures var after, own := Relist(t, item), (item.ip, item.source);
      && OthersStay(t, after, own) && after[own].active
      && (own in t ==> after[own] == t[own].(active := true))
      && (own !in t ==> after[own].removal.None? && after[own].detected == item.row.detected)
    ensures var after, own := Create(t, item), (item.ip, item.source);
      && OthersStay(t, after, own) && after[own].active == item.row.active
      && after[own].removal == item.row.removal && after[own].detected == item.row.detected
      && after[own].detections == (if own in t then t[own].detections + 1 else item.row.detections)
    ensures var after := HandExpire(t, k, today);
      && after.Keys == t.Keys && (forall j :: j in t && j != k ==> after[j] == t[j])
      && (k in t && !t[k].active ==> after[k] == t[k])
      && (k in t && t[k].active ==>
            !after[k].active && after[k].removal == Some(today) && after[k].detected == t[k].detected)
    ensures var after := Edit(t, k, c);
      && after.Keys == t.Keys && (forall j :: j in t && j != k ==> after[j] == t[j])
      && (k in t ==> Some(after[k].active) == (if c.active.Some? then c.active else Some(t[k].active)))
      && (k in t ==> Some(after[k].detected) == (if c.detected.Some? then c.detected else Some(t[k].detected)))
      && (k in t ==> Some(after[k].removal) == (if c.removal.Some? then c.removal else Some(t[k].removal)))
  {
  }

  lemma ManyRowsLeave(t: Table, item: Item, ip: string, dataSource: string, gone: set<Key>, limit: Date)
    ensures SourceOff(t, dataSource).Keys == t.Keys
    ensures forall k :: k in t ==>
      SourceOff(t, dataSource)[k] == t[k].(active := t[k].active && t[k].dataSource != Some(dataSource))
    ensures var k, after := (item.ip, item.source), BatchAdd(t, item);
      OthersStay(t, after, k) && if k in t then after == t else after[k].active && after[k].removal.None?
    ensures BatchRemove(t, ip).Keys == (set k | k in t && k.0 != ip) && Delete(t, gone).Keys == t.Keys - gone
    ensures Purge(t, gone, limit).Keys == set k | k in t
      && (k !in gone || t[k].active || (t[k].removal.Some? && !Before(t[k].removal.value, limit)))
    ensures forall k :: k in BatchRemove(t, ip) ==> BatchRemove(t, ip)[k] == t[k]
    ensures forall k :: k in Delete(t, gone) ==> Delete(t, gone)[k] == t[k]
    ensures forall k :: k in Purge(t, gone, limit) ==> Purge(t, gone, limit)[k] == t[k]
  {
  }

  // ------------------------------------------------------------------------------------- histories

  datatype Op =
    | Collect(item: Item)
    | AppSave(item: Item)
    | Persist(item: Item)
    | Block(key: Key, reason: string, confidence: int, now: int)
    | RelistOp(item: Item)
    | SourceOffOp(dataSource: string)
    | HandExpireOp(key: Key)
    | CreateOp(item: Item)
    | EditOp(key: Key, change: Change)
    | BatchAddOp(item: Item)
    | BatchRemoveOp(ip: string)
    | DeleteOp(gone: set<Key>)
    | PurgeOp(aged: set<Key>, limit: Date)
    | ExpiryPass
    | Cleanup

  datatype Event = Event(day: Date, op: Op)

  function Perform(t: Table, e: Event): Table {
    match e.op
    case Collect(item) => CollectorUpsert(t, item, e.day)
    case AppSave(item) => AppUpsert(t, item, e.day)
    case Persist(item) => PersistUpsert(t, item, e.day)
    case Block(key, reason, confidence, now) => ManualBlock(t, key, reason, confidence, now)
    case RelistOp(item) => Relist(t, item)
    case SourceOffOp(dataSource) => SourceOff(t, dataSource)
    case HandExpireOp(key) => HandExpire(t, key, e.day)
    case CreateOp(item) => Create(t, item)
    case EditOp(key, change) => Edit(t, key, change)
    case BatchAddOp(item) => BatchAdd(t, item)
    case BatchRemoveOp(ip) => BatchRemove(t, ip)
    case DeleteOp(gone) => Delete(t, gone)
    case PurgeOp(aged, limit) => Purge(t, aged, limit)
    case ExpiryPass => Expire(t, e.day)
    case Cleanup => Clean(t, e.day)
  }

  function Run(t: Table, events: seq<Event>): Table
    decreases events
  {
    if events == [] then t else Run(Perform(t, events[0]), events[1..])
  }

  predicate InOrder(events: seq<Event>, last: Date)
    decreases events
  {
    if events == [] then OnCalendar(last)
    else
      && OnCalendar(events[0].day)
      && NotAfter(events[0].day, if |events| == 1 then last else events[1].day) && InOrder(events[1..], last)
  }

  /**
   All that matters of a history: the removal date and the detection date as the writers left them, and whether the
   last of them that decides it wanted the row active. Expiry passes and cleanups do not occur in it.
   */
  datatype Gist = Gist(removal: Option<Date>, detected: Option<Date>, wanted: bool)

  function GistOf(t: Table, k: Key): Option<Gist> {
    if k in t then Some(Gist(t[k].removal, t[k].detected, t[k].active)) else None
  }

  /** An edit that moves a date without deciding the flag keeps the flag as it is. */
  predicate KeepsFlag(c: Change) {
    c.active.None? && (c.detected.Some? || c.removal.Some?)
  }

  /** What a writer makes of the gist of a row; `r` is the row it finds. */
  function NotedOn(g: Gist, op: Op, r: Row, day: Date): Gist {
    match op
    case Collect(item) => Gist(Coalesce(item.row.removal, g.removal), g.detected, item.row.active)
    case AppSave(item) => Gist(Coalesce(item.row.removal, g.removal), g.detected, item.row.active)
    case Persist(item) =>
      Gist(Coalesce(item.row.removal, g.removal), Coalesce(item.row.detected, g.detected), item.row.active)
    case Block(_, _, _, _) => g.(wanted := true)
    case RelistOp(_) => g.(wanted := true)
    case SourceOffOp(dataSource) => if r.dataSource == Some(dataSource) then g.(wanted := false) else g
    case HandExpireOp(_) => if r.active then Gist(Some(day), g.detected, false) else g
    case CreateOp(item) => Gist(item.row.removal, item.row.detected, item.row.active)
    case EditOp(_, c) =>
      Gist(if c.removal.Some? then c.removal.value else g.removal,
           if c.detected.Some? then c.detected.value else g.detected,
           if c.active.Some? then c.active.value else if KeepsFlag(c) then r.active else g.wanted)
    case _ => g
  }

  /** The gist of a row that a writer creates. */
  function NotedNew(op: Op): Option<Gist> {
    match op
    case Collect(item) => Some(Gist(item.row.removal, item.row.detected, item.row.active))
    case AppSave(item) => Some(Gist(item.row.removal, item.row.detected, item.row.active))
    case Persist(item) => Some(Gist(item.row.removal, item.row.detected, item.row.active))
    case CreateOp(item) => Some(Gist(item.row.removal, item.row.detected, item.row.active))
    case Block(_, _, _, _) => Some(Gist(None, None, true))
    case RelistOp(item) => Some(Gist(None, item.row.detected, true))
    case BatchAddOp(item) => Some(Gist(None, item.row.detected, true))
    case _ => None
  }

  predicate Concerns(op: Op, k: Key) {
    match op
    case Block(key, _, _, _) => key == k
    case HandExpireOp(key) => key == k
    case EditOp(key, _) => key == k
    case BatchRemoveOp(ip) => ip == k.0
    case DeleteOp(gone) => k in gone
    case PurgeOp(aged, _) => k in aged
    case SourceOffOp(_) => true
    case ExpiryPass => false
    case Cleanup => false
    case _ => KeyOf(op.item) == k
  }

  function Noted(g: Option<Gist>, e: Event, k: Key, t: Table): Option<Gist>
    requires g.Some? <==> k in t
  {
    if !Concerns(e.op, k) then g
    else if e.op.BatchRemoveOp? || e.op.DeleteOp? then None
    else if k in t && e.op.PurgeOp? && Purgeable(t[k], e.op.limit) then None
    else if k in t then Some(NotedOn(g.value, e.op, t[k], e.day))
    else NotedNew(e.op)
  }

  lemma NotedExactlyForRows(g: Option<Gist>, e: Event, k: Key, t: Table)
    requires g.Some? <==> k in t
    ensures Noted(g, e, k, t).Some? <==> k in Perform(t, e)
  {
  }

  function NotedAll(g: Option<Gist>, events: seq<Event>, k: Key, t: Table): (r: Option<Gist>)
    requires g.Some? <==> k in t
    ensures r.Some? <==> k in Run(t, events)
    decreases events
  {
    if events == [] then g
    else
      NotedExactlyForRows(g, events[0], k, t);
      NotedAll(Noted(g, events[0], k, t), events[1..], k, Perform(t, events[0]))
  }

  /** Without a removal date the flag differs from what was wanted only for a row that is already too old. */
  predicate Agrees(t: Table, k: Key, g: Option<Gist>, day: Date) {
    && (g.Some? <==> k in t)
    && (k in t ==>
          && t[k].removal == g.value.removal && t[k].detected == g.value.detected
          && (t[k].removal.None? && t[k].active ==> g.value.wanted)
          && (t[k].removal.None? && g.value.wanted && !t[k].active ==> Past(t[k].detected, ThreeMonthsBefore(day))))
  }

  lemma EventKeepsAgreement(t: Table, e: Event, k: Key, g: Option<Gist>)
    requires Agrees(t, k, g, e.day)
    ensures Agrees(Perform(t, e), k, Noted(g, e, k, t), e.day)
  {
    hide ThreeMonthsBefore, Before;
    NotedExactlyForRows(g, e, k, t);
    if e.op.Cleanup? && k in t {
      CleanupClosedForm(t, e.day, k);
    }
  }

  lemma LaterDayKeepsAgreement(t: Table, k: Key, g: Option<Gist>, day: Date, later: Date)
    requires Agrees(t, k, g, day) && OnCalendar(day) && OnCalendar(later) && NotAfter(day, later)
    ensures Agrees(t, k, g, later)
  {
    ThreeMonthsBeforeIsMonotone(day, later);
    hide ThreeMonthsBefore;
  }

  lemma {:induction false} RunKeepsAgreement(t: Table, events: seq<Event>, k: Key, g: Option<Gist>, last: Date)
    requires InOrder(events, last) && Agrees(t, k, g, if events == [] then last else events[0].day)
    ensures Agrees(Run(t, events), k, NotedAll(g, events, k, t), last)
    decreases events
  {
    if events != [] {
      var next := if |events| == 1 then last else events[1].day;
      EventKeepsAgreement(t, events[0], k, g);
      hide Perform, Noted;
      assert OnCalendar(next);
      LaterDayKeepsAgreement(Perform(t, events[0]), k, Noted(g, events[0], k, t), events[0].day, next);
      RunKeepsAgreement(Perform(t, events[0]), events[1..], k, Noted(g, events[0], k, t), last);
    }
  }

  /**
   Main result: after any history on days in order and a cleanup at its end, a row is active exactly when its removal
   date, as the writers left it, is today or later, or it has none, was last wanted active, and was detected no more
   than three months ago.
   */
  lemma ActivityOfHistory(t: Table, events: seq<Event>, k: Key, today: Date)
    requires InOrder(events, today)
    ensures k in Run(t, events) ==>
      var g := NotedAll(GistOf(t, k), events, k, t).value;
      Clean(Run(t, events), today)[k].active <==>
        FromTodayOn(g.removal, today)
        || (g.removal.None? && g.wanted && !Past(g.detected, ThreeMonthsBefore(today)))
  {
    RunKeepsAgreement(t, events, k, GistOf(t, k), today);
    if k in Run(t, events) {
      CleanupClosedForm(Run(t, events), today, k);
    }
  }

  // --------------------------------------------------------------------- what leaves no trace at all

  predicate Passive(e: Event) {
    e.op.ExpiryPass? || e.op.Cleanup?
  }

  /** Only expiring by hand, moving a date without the flag, and the purge look at the flag they find. */
  predicate FlagBlind(e: Event) {
    !e.op.HandExpireOp? && !e.op.PurgeOp? && !(e.op.EditOp? && KeepsFlag(e.op.change))
  }

  function WithoutPassive(events: seq<Event>): seq<Event>
    decreases events
  {
    if events == [] then []
    else if Passive(events[0]) then WithoutPassive(events[1..])
    else [events[0]] + WithoutPassive(events[1..])
  }

  /** Two tables that differ in flags only. */
  predicate SameButFlags(t: Table, u: Table) {
    t.Keys == u.Keys && forall k :: k in t && k in u ==> t[k] == u[k].(active := t[k].active)
  }

  lemma PassiveChangeFlagsOnly(t: Table, u: Table, e: Event)
    requires SameButFlags(t, u) && Passive(e)
    ensures SameButFlags(Perform(t, e), u) && SameButFlags(Perform(t, e), Perform(u, e))
  {
    forall k | k in t ensures Perform(t, e)[k] == t[k].(active := Perform(t, e)[k].active)
    {
      if e.op.Cleanup? {
        CleanupClosedForm(t, e.day, k);
      }
    }
    forall k | k in u ensures Perform(u, e)[k] == u[k].(active := Perform(u, e)[k].active)
    {
      if e.op.Cleanup? {
        CleanupClosedForm(u, e.day, k);
      }
    }
    hide CleanRow, DeactivateExpired;
  }

  /** A writer of one row that leaves the others alone. */
  predicate WritesOnly(t: Table, after: Table, k: Key) {
    after.Keys == t.Keys + {k} && forall j :: j in t && j != k ==> after[j] == t[j]
  }

  lemma OneRowIgnoresFlags(t: Table, u: Table, t': Table, u': Table, k: Key)
    requires SameButFlags(t, u) && WritesOnly(t, t', k) && WritesOnly(u, u', k)
    requires t'[k] == u'[k].(active := t'[k].active)
    ensures SameButFlags(t', u')
  {
  }

  lemma CollectorIgnoresFlags(t: Table, u: Table, item: Item, day: Date)
    requires SameButFlags(t, u)
    ensures SameButFlags(CollectorUpsert(t, item, day), CollectorUpsert(u, item, day))
  {
    OneRowIgnoresFlags(t, u, CollectorUpsert(t, item, day), CollectorUpsert(u, item, day), KeyOf(item));
  }

  lemma ApplicationIgnoresFlags(t: Table, u: Table, item: Item, day: Date)
    requires SameButFlags(t, u)
    ensures SameButFlags(AppUpsert(t, item, day), AppUpsert(u, item, day))
  {
    OneRowIgnoresFlags(t, u, AppUpsert(t, item, day), AppUpsert(u, item, day), KeyOf(item));
  }

  lemma PersistenceIgnoresFlags(t: Table, u: Table, item: Item, day: Date)
    requires SameButFlags(t, u)
    ensures SameButFlags(PersistUpsert(t, item, day), PersistUpsert(u, item, day))
  {
    OneRowIgnoresFlags(t, u, PersistUpsert(t, item, day), PersistUpsert(u, item, day), KeyOf(item));
  }

  lemma EditorIgnoresFlags(t: Table, u: Table, item: Item)
    requires SameButFlags(t, u)
    ensures SameButFlags(Create(t, item), Create(u, item))
  {
    OneRowIgnoresFlags(t, u, Create(t, item), Create(u, item), KeyOf(item));
  }

  lemma HandWorkIgnoresFlags(t: Table, u: Table, e: Event)
    requires SameButFlags(t, u) && FlagBlind(e) && !Passive(e)
    requires !e.op.Collect? && !e.op.AppSave? && !e.op.Persist? && !e.op.CreateOp?
    ensures SameButFlags(Perform(t, e), Perform(u, e))
  {
    hide CollectorUpsert, AppUpsert, PersistUpsert, Create, Clean, Expire;
  }

  lemma BlindEventsIgnoreFlags(t: Table, u: Table, e: Event)
    requires SameButFlags(t, u) && FlagBlind(e)
    ensures SameButFlags(Perform(t, e), Perform(u, e))
    ensures Passive(e) ==> SameButFlags(Perform(t, e), u)
  {
    hide CollectorUpsert, AppUpsert, PersistUpsert, Create, Clean, Expire, ManualBlock, Relist, SourceOff, Edit,
      BatchAdd, BatchRemove, Delete, Purge, SameButFlags;
    match e.op
    case Collect(item) => CollectorIgnoresFlags(t, u, item, e.day);
    case AppSave(item) => ApplicationIgnoresFlags(t, u, item, e.day);
    case Persist(item) => PersistenceIgnoresFlags(t, u, item, e.day);
    case CreateOp(item) => EditorIgnoresFlags(t, u, item);
    case ExpiryPass => PassiveChangeFlagsOnly(t, u, e);
    case Cleanup => PassiveChangeFlagsOnly(t, u, e);
    case _ => HandWorkIgnoresFlags(t, u, e);
  }

  lemma NoticeIgnoresFlags(g: Option<Gist>, e: Event, k: Key, t: Table, u: Table)
    requires SameButFlags(t, u) && (g.Some? <==> k in t) && FlagBlind(e)
    ensures Noted(g, e, k, t) == Noted(g, e, k, u) && (Passive(e) ==> Noted(g, e, k, t) == g)
  {
  }

  lemma {:induction false} PassiveAreNotNoted(g: Option<Gist>, events: seq<Event>, k: Key, t: Table, u: Table)
    requires SameButFlags(t, u) && (g.Some? <==> k in t) && forall e :: e in events ==> FlagBlind(e)
    ensures NotedAll(g, WithoutPassive(events), k, u) == NotedAll(g, events, k, t)
    ensures k in Run(t, events) <==> k in Run(u, WithoutPassive(events))
    decreases events
  {
    if events != [] {
      var e := events[0];
      BlindEventsIgnoreFlags(t, u, e);
      NotedExactlyForRows(g, e, k, t);
      NoticeIgnoresFlags(g, e, k, t, u);
      hide Perform, Noted, SameButFlags, FlagBlind;
      if Passive(e) {
        PassiveAreNotNoted(g, events[1..], k, Perform(t, e), u);
      } else {
        PassiveAreNotNoted(Noted(g, e, k, t), events[1..], k, Perform(t, e), Perform(u, e));
        assert ([e] + WithoutPassive(events[1..]))[1..] == WithoutPassive(events[1..]);
      }
    }
  }

  lemma {:induction false} RestStaysInOrder(events: seq<Event>, last: Date)
    requires InOrder(events, last)
    ensures InOrder(WithoutPassive(events), last)
    ensures WithoutPassive(events) != [] ==> events != [] && NotAfter(events[0].day, WithoutPassive(events)[0].day)
    ensures events != [] ==> NotAfter(events[0].day, last)
    decreases events
  {
    if events != [] {
      RestStaysInOrder(events[1..], last);
      assert ([events[0]] + WithoutPassive(events[1..]))[1..] == WithoutPassive(events[1..]);
    }
  }

  /**
   As long as no writer looks at the flag, a cleanup makes up for every expiry pass and every cleanup that did or did
   not run before it.
   */
  lemma CleanupMakesUpForTheRest(t: Table, events: seq<Event>, k: Key, today: Date)
    requires InOrder(events, today) && k in Run(t, events) && forall e :: e in events ==> FlagBlind(e)
    ensures k in Run(t, WithoutPassive(events))
    ensures Clean(Run(t, events), today)[k].active == Clean(Run(t, WithoutPassive(events)), today)[k].active
  {
    RestStaysInOrder(events, today);
    PassiveAreNotNoted(GistOf(t, k), events, k, t, t);
    ActivityOfHistory(t, events, k, today);
    ActivityOfHistory(t, WithoutPassive(events), k, today);
  }

  /** Of the others this is not so: expiring an old row by hand the same day depends on a cleanup before it. */
  lemma HandExpiryLooksAtTheFlag(day: Date) returns (t: Table, k: Key)
    requires OnCalendar(day)
    ensures k in t && k in Clean(t, day)
    ensures Clean(HandExpire(t, k, day), day)[k].active
    ensures !Clean(HandExpire(Clean(t, day), k, day), day)[k].active
  {
    ThreeMonthsBeforeIsMonotone(day, day);
    var limit := ThreeMonthsBefore(day);
    k := ("198.51.100.7", "REGTECH");
    t := map[k := Row("", 0, 1, 0, true, Some(Date(limit.year - 1, 1, 1)), None, None, "", None)];
    hide ThreeMonthsBefore;
  }

  /** The purge deletes an old row without a removal date only when a cleanup has switched it off before. */
  lemma PurgeLooksAtTheFlag(t: Table, k: Key, day: Date, aged: set<Key>, limit: Date)
    requires k in t && k in aged && t[k].active && t[k].removal.None?
    ensures k in Purge(t, aged, limit)
    ensures k in Purge(Clean(t, day), aged, limit) <==> !Past(t[k].detected, ThreeMonthsBefore(day))
  {
    CleanupClosedForm(t, day, k);
  }

  // ------------------------------------------------------------------------ switching off by hand

  /** A row expired by hand stays off after a cleanup exactly when that is on a later day: the same day revives it. */
  lemma HandExpirySurvivesIff(t: Table, k: Key, day: Date, today: Date)
    requires k in t && t[k].active
    ensures k in HandExpire(t, k, day) && !HandExpire(t, k, day)[k].active
    ensures !Clean(HandExpire(t, k, day), today)[k].active <==> Before(day, today)
  {
    CleanupClosedForm(HandExpire(t, k, day), today, k);
  }

  /** A row switched off without a date, by its source or in the editor, exactly when no removal date revives it. */
  lemma SwitchOffSurvivesIff(t: Table, k: Key, today: Date)
    requires k in t && !t[k].active
    ensures !Clean(t, today)[k].active <==> !FromTodayOn(t[k].removal, today)
  {
    CleanupClosedForm(t, today, k);
  }
}
