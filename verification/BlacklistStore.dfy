/** The database service of the collector and the cleanup job, writing the table in place. */
module BlacklistStore {
  import opened Common
  import opened BlacklistTable

  // ------------------------------------------------------------------------ filtering, deduplication

  /** Address syntax and ranges: whether an address is well formed and neither private nor reserved. */
  type Routable = string -> bool

  predicate Keep(item: Item, routable: Routable, today: Date) {
    item.ip != "" && routable(item.ip) && !Past(item.row.removal, today)
  }

  function Kept(items: seq<Item>, routable: Routable, today: Date): seq<Item> {
    if items == [] then []
    else (if Keep(items[0], routable, today) then [items[0]] else []) + Kept(items[1..], routable, today)
  }

  /** The first item of every address not in `seen`, in order. */
  function Firsts(items: seq<Item>, seen: set<string>): seq<Item> {
    if items == [] then []
    else if items[0].ip == "" || items[0].ip in seen then Firsts(items[1..], seen)
    else [items[0]] + Firsts(items[1..], seen + {items[0].ip})
  }

  /** What one more item adds: itself, unless its address is empty, was seen before, or is that of an earlier item. */
  lemma {:induction false} FirstsOfOneMore(items: seq<Item>, x: Item, seen: set<string>)
    ensures Firsts(items + [x], seen) == Firsts(items, seen)
      + (if x.ip == "" || x.ip in seen || (exists y :: y in items && y.ip == x.ip) then [] else [x])
    ensures Firsts([], seen) == []
    decreases items
  {
    if items == [] {
      assert [] + [x] == [x] && [x][1..] == [];
    } else {
      var first, rest := items[0], items[1..];
      assert (items + [x])[1..] == rest + [x] && items == [first] + rest;
      FirstsOfOneMore(rest, x, if first.ip == "" || first.ip in seen then seen else seen + {first.ip});
    }
  }

  predicate DistinctAddresses(items: seq<Item>) {
    forall i, j :: 0 <= i < j < |items| ==> items[i].ip != items[j].ip
  }

  lemma {:induction false} FirstsAreDistinct(items: seq<Item>, seen: set<string>)
    ensures DistinctAddresses(Firsts(items, seen))
    ensures forall item :: item in Firsts(items, seen) ==> item in items && item.ip != "" && item.ip !in seen
    decreases items
  {
    if items != [] {
      if items[0].ip == "" || items[0].ip in seen {
        FirstsAreDistinct(items[1..], seen);
      } else {
        FirstsAreDistinct(items[1..], seen + {items[0].ip});
      }
    }
  }

  predicate FirstWith(items: seq<Item>, ip: string, j: nat) {
    j < |items| && items[j].ip == ip && forall k :: 0 <= k < j ==> items[k].ip != ip
  }

  /** No address is lost: each one outside `seen` has its first item in the result. */
  lemma {:induction false} FirstsCoverAddresses(items: seq<Item>, seen: set<string>, j: nat, ip: string)
    requires FirstWith(items, ip, j) && ip != "" && ip !in seen
    ensures items[j] in Firsts(items, seen)
    decreases items
  {
    if j > 0 {
      var next := if items[0].ip == "" || items[0].ip in seen then seen else seen + {items[0].ip};
      assert FirstWith(items[1..], ip, j - 1);
      FirstsCoverAddresses(items[1..], next, j - 1, ip);
    }
  }

  lemma {:induction false} KeptInOrder(items: seq<Item>, routable: Routable, today: Date)
    ensures Sublist(Kept(items, routable, today), items)
    decreases items
  {
    if items != [] {
      var rest := Kept(items[1..], routable, today);
      KeptInOrder(items[1..], routable, today);
      if Keep(items[0], routable, today) {
        assert ([items[0]] + rest)[1..] == rest;
      } else {
        assert [] + rest == rest;
        SublistOfMore(rest, items);
      }
    }
  }

  /** The acceptable items as often as they occur, and no others. */
  lemma {:induction false} KeptExactly(items: seq<Item>, routable: Routable, today: Date, x: Item)
    ensures multiset(Kept(items, routable, today))[x]
      == (if x.ip != "" && routable(x.ip) && !Past(x.row.removal, today) then multiset(items)[x] else 0)
    decreases items
  {
    hide Past;
    if items != [] {
      KeptExactly(items[1..], routable, today, x);
      assert items == [items[0]] + items[1..];
    }
  }

  lemma SublistOfMore(a: seq<Item>, b: seq<Item>)
    requires b != [] && Sublist(a, b[1..])
    ensures Sublist(a, b)
  {
  }

  ghost predicate AreAcceptable(valid: seq<Item>, items: seq<Item>, routable: Routable, today: Date) {
    && Sublist(valid, items)
    && forall x :: multiset(valid)[x]
         == (if x.ip != "" && routable(x.ip) && !Past(x.row.removal, today) then multiset(items)[x] else 0)
  }

  lemma KeptAreAcceptable(items: seq<Item>, routable: Routable, today: Date)
    ensures AreAcceptable(Kept(items, routable, today), items, routable, today)
  {
    KeptInOrder(items, routable, today);
    hide Kept, Sublist;
    forall x ensures multiset(Kept(items, routable, today))[x]
      == (if x.ip != "" && routable(x.ip) && !Past(x.row.removal, today) then multiset(items)[x] else 0)
    {
      KeptExactly(items, routable, today, x);
    }
  }

  method FilterInvalidIps(items: seq<Item>, routable: Routable, today: Date) returns (valid: seq<Item>, excluded: nat)
    ensures valid == Kept(items, routable, today) && |valid| + excluded == |items|
    ensures AreAcceptable(valid, items, routable, today)
  {
    KeptAreAcceptable(items, routable, today);
    hide AreAcceptable;
    valid, excluded := [], 0;
    for i := 0 to |items|
      invariant valid + Kept(items[i..], routable, today) == Kept(items, routable, today)
      invariant |valid| + excluded == i
    {
      ghost var rest := Kept(items[i + 1..], routable, today);
      assert items[i..][1..] == items[i + 1..];
      if Keep(items[i], routable, today) {
        assert valid + ([items[i]] + rest) == (valid + [items[i]]) + rest;
        valid := valid + [items[i]];
      } else {
        assert [] + rest == rest;
        excluded := excluded + 1;
      }
    }
    assert items[|items|..] == [];
    assert valid + [] == valid;
  }

  /** Keeps the first item of every address, stopping at the size limit. */
  method MemoryOptimizedDedup(items: seq<Item>, maxSize: nat) returns (unique: seq<Item>)
    requires maxSize >= 1
    ensures unique == Capped(Firsts(items, {}), maxSize)
  {
    unique := [];
    var seen: set<string> := {};
    for i := 0 to |items|
      invariant unique + Firsts(items[i..], seen) == Firsts(items, {}) && |unique| < maxSize
    {
      assert items[i..][1..] == items[i + 1..];
      if items[i].ip != "" && items[i].ip !in seen {
        ghost var rest := Firsts(items[i + 1..], seen + {items[i].ip});
        assert unique + ([items[i]] + rest) == (unique + [items[i]]) + rest;
        seen := seen + {items[i].ip};
        unique := unique + [items[i]];
        if |unique| >= maxSize {
          assert unique == (unique + rest)[..maxSize];
          return;
        }
      }
    }
    assert items[|items|..] == [];
    assert unique + [] == unique;
  }

  function Capped(items: seq<Item>, n: nat): seq<Item> {
    if |items| <= n then items else items[..n]
  }

  /** Everything, or as many of the first ones as fit. */
  lemma CappedIs(items: seq<Item>, n: nat)
    ensures Capped(items, n) <= items && |Capped(items, n)| <= n
    ensures |Capped(items, n)| == n || Capped(items, n) == items
  {
  }

  // ------------------------------------------------------------------------------------- batches

  function Fold(t: Table, items: seq<Item>, today: Date): Table
    decreases items
  {
    if items == [] then t else Fold(CollectorUpsert(t, items[0], today), items[1..], today)
  }

  lemma {:induction false} FoldSplits(t: Table, a: seq<Item>, b: seq<Item>, today: Date)
    ensures Fold(t, a + b, today) == Fold(Fold(t, a, today), b, today)
    decreases a
  {
    if a == [] {
      assert a + b == b;
    } else {
      assert (a + b)[0] == a[0] && (a + b)[1..] == a[1..] + b;
      FoldSplits(CollectorUpsert(t, a[0], today), a[1..], b, today);
    }
  }

  /**
   What saving means row by row, for items of distinct addresses: a row whose key is in the list is upserted
   once, from its old value, and every other row stays.
   */
  lemma {:induction false} FoldRowByRow(t: Table, items: seq<Item>, today: Date, k: Key)
    requires DistinctAddresses(items)
    ensures (forall i :: 0 <= i < |items| ==> KeyOf(items[i]) != k) ==>
      (k in Fold(t, items, today) <==> k in t) && (k in t ==> Fold(t, items, today)[k] == t[k])
    ensures forall i :: 0 <= i < |items| && KeyOf(items[i]) == k ==>
      k in Fold(t, items, today) && Fold(t, items, today)[k] == CollectorUpsert(t, items[i], today)[k]
    decreases items
  {
    if items != [] {
      var rest := items[1..];
      var next := CollectorUpsert(t, items[0], today);
      assert forall i :: 0 <= i < |rest| ==> rest[i] == items[i + 1];
      FoldRowByRow(next, rest, today, k);
      forall i | 0 <= i < |items| && KeyOf(items[i]) == k
        ensures k in Fold(t, items, today) && Fold(t, items, today)[k] == CollectorUpsert(t, items[i], today)[k]
      {
        if i > 0 {
          assert items[0].ip != items[i].ip;
          assert KeyOf(rest[i - 1]) == k;
        }
      }
    }
  }

  /** The first list is the second one with items left out. */
  predicate Sublist(a: seq<Item>, b: seq<Item>)
    decreases b
  {
    || a == []
    || (b != [] && ((a[0] == b[0] && Sublist(a[1..], b[1..])) || Sublist(a, b[1..])))
  }

  lemma {:induction false} SublistIsShorter(a: seq<Item>, b: seq<Item>)
    requires Sublist(a, b)
    ensures |a| <= |b| && (|a| == |b| ==> a == b)
    ensures forall item :: item in a ==> item in b
    decreases b
  {
    if a != [] {
      assert a == [a[0]] + a[1..] && b == [b[0]] + b[1..];
      if a[0] == b[0] && Sublist(a[1..], b[1..]) {
        SublistIsShorter(a[1..], b[1..]);
      } else {
        SublistIsShorter(a, b[1..]);
      }
    }
  }

  lemma {:induction false} PrefixIsSublist(a: seq<Item>, n: nat)
    requires n <= |a|
    ensures Sublist(a[..n], a)
    decreases n
  {
    if n > 0 {
      PrefixIsSublist(a[1..], n - 1);
      assert a[..n][1..] == a[1..][..n - 1];
    }
  }

  lemma {:induction false} SublistsJoin(a: seq<Item>, b: seq<Item>, c: seq<Item>, d: seq<Item>)
    requires Sublist(a, b) && Sublist(c, d)
    ensures Sublist(a + c, b + d)
    decreases b
  {
    if b == [] {
      assert a + c == c && b + d == d;
    } else {
      assert (b + d)[1..] == b[1..] + d;
      if a != [] && a[0] == b[0] && Sublist(a[1..], b[1..]) {
        SublistsJoin(a[1..], b[1..], c, d);
        assert (a + c)[1..] == a[1..] + c;
      } else {
        SublistsJoin(a, b[1..], c, d);
        if a + c != [] {
          assert Sublist(a + c, (b + d)[1..]);
        }
      }
    }
  }

  // ------------------------------------------------------------------------------- what is counted

  function Addresses(items: seq<Item>): set<string> {
    if items == [] then {} else {items[0].ip} + Addresses(items[1..])
  }

  function Keys(items: seq<Item>): set<Key> {
    if items == [] then {} else {KeyOf(items[0])} + Keys(items[1..])
  }

  lemma {:induction false} AddressesAre(items: seq<Item>, ip: string)
    ensures ip in Addresses(items) <==> exists i :: 0 <= i < |items| && items[i].ip == ip
    ensures (forall i :: 0 <= i < |items| ==> items[i].ip != ip) ==> forall source :: (ip, source) !in Keys(items)
    decreases items
  {
    if items != [] {
      AddressesAre(items[1..], ip);
      assert forall i :: 1 <= i < |items| ==> items[i] == items[1..][i - 1];
    }
  }

  function StoredAddresses(t: Table): set<string> {
    set k | k in t :: k.0
  }

  function NewItems(items: seq<Item>, existing: set<string>): seq<Item> {
    if items == [] then []
    else (if items[0].ip !in existing then [items[0]] else []) + NewItems(items[1..], existing)
  }

  lemma {:induction false} CountsAddUp(items: seq<Item>, existing: set<string>)
    requires DistinctAddresses(items)
    ensures |NewItems(items, existing)| + |existing * Addresses(items)| == |items|
    decreases items
  {
    if items != [] {
      var rest, ip := items[1..], items[0].ip;
      CountsAddUp(rest, existing);
      AddressesAre(rest, ip);
      assert existing * Addresses(items) == existing * Addresses(rest) + (if ip in existing then {ip} else {});
    }
  }

  lemma {:induction false} OnlyListedMatter(items: seq<Item>, a: set<string>, b: set<string>)
    requires forall i :: 0 <= i < |items| ==> (items[i].ip in a <==> items[i].ip in b)
    ensures NewItems(items, a) == NewItems(items, b)
    decreases items
  {
    if items != [] {
      OnlyListedMatter(items[1..], a, b);
    }
  }

  lemma {:induction false} FoldKeys(t: Table, items: seq<Item>, today: Date)
    ensures Fold(t, items, today).Keys == t.Keys + Keys(items)
    decreases items
  {
    if items != [] {
      FoldKeys(CollectorUpsert(t, items[0], today), items[1..], today);
    }
  }

  /** An address counts as existing under any source, a row only under its own. */
  predicate ExistingUnderOwnSource(t: Table, items: seq<Item>) {
    forall i :: 0 <= i < |items| && items[i].ip in StoredAddresses(t) ==> KeyOf(items[i]) in t
  }

  /**
   The count of new addresses never exceeds the number of rows a save adds, and equals it exactly when no
   address in the list was known only from another source.
   */
  lemma NewCountCountsRowsIff(t: Table, items: seq<Item>, today: Date)
    requires DistinctAddresses(items)
    ensures var added := Fold(t, items, today).Keys - t.Keys;
      && |NewItems(items, StoredAddresses(t))| <= |added|
      && (|NewItems(items, StoredAddresses(t))| == |added| <==> ExistingUnderOwnSource(t, items))
  {
    hide Fold, Keys, NewItems, StoredAddresses, ExistingUnderOwnSource, DistinctAddresses;
    FoldKeys(t, items, today);
    NewKeysCount(t, items);
    assert Fold(t, items, today).Keys - t.Keys == Keys(items) - t.Keys;
  }

  lemma OneMoreMember<T>(a: set<T>, x: T, b: set<T>)
    requires x !in a
    ensures |({x} + a) - b| == |a - b| + if x in b then 0 else 1
  {
    if x in b {
      assert ({x} + a) - b == a - b;
    } else {
      assert ({x} + a) - b == {x} + (a - b);
    }
  }

  lemma OwnSourceOfRest(t: Table, items: seq<Item>)
    requires items != []
    ensures var rest, k := items[1..], KeyOf(items[0]);
      ExistingUnderOwnSource(t, items) <==>
        ExistingUnderOwnSource(t, rest) && (k.0 in StoredAddresses(t) ==> k in t)
  {
    hide StoredAddresses;
    var rest := items[1..];
    assert forall i :: 0 <= i < |rest| ==> rest[i] == items[i + 1];
    assert forall i :: 1 <= i < |items| ==> items[i] == rest[i - 1];
  }

  lemma {:induction false} NewKeysCount(t: Table, items: seq<Item>)
    requires DistinctAddresses(items)
    ensures |NewItems(items, StoredAddresses(t))| <= |Keys(items) - t.Keys|
    ensures |NewItems(items, StoredAddresses(t))| == |Keys(items) - t.Keys| <==> ExistingUnderOwnSource(t, items)
    decreases items
  {
    if items != [] {
      var rest, k := items[1..], KeyOf(items[0]);
      assert k in t ==> k.0 in StoredAddresses(t);
      hide StoredAddresses;
      NewKeysCount(t, rest);
      AddressesAre(rest, k.0);
      assert (k.0, k.1) !in Keys(rest);
      OneMoreMember(Keys(rest), k, t.Keys);
      OwnSourceOfRest(t, items);
      hide ExistingUnderOwnSource;
    } else {
      assert Keys(items) == {};
    }
  }

  // ---------------------------------------------------------------------- activity, row by row

  function ActiveKeys(t: Table): set<Key> {
    set k | k in t && t[k].active
  }

  function Retire(t: Table, today: Date): Table {
    map k | k in t :: DeactivateOld(t[k], today)
  }

  function Revive(t: Table, today: Date): Table {
    map k | k in t :: Reactivate(t[k], today)
  }

  function Changed(before: Table, after: Table): set<Key> {
    set k | k in before && k in after && before[k].active != after[k].active
  }

  lemma SwitchedOffAreCounted(before: Table, after: Table)
    requires before.Keys == after.Keys && forall k :: k in after && after[k].active ==> before[k].active
    ensures |ActiveKeys(after)| == |ActiveKeys(before)| - |Changed(before, after)|
    ensures |ActiveKeys(after)| == |ActiveKeys(before)| - |Changed(after, before)|
  {
    assert ActiveKeys(after) == ActiveKeys(before) - Changed(before, after);
    assert Changed(before, after) <= ActiveKeys(before);
    assert Changed(after, before) == Changed(before, after);
  }

  /** The reported counts are consistent with the number of active rows before and after. */
  lemma ActivityIsConserved(t: Table, today: Date)
    ensures var t1 := Expire(t, today); var t2 := Retire(t1, today); var t3 := Revive(t2, today);
      && t3 == Clean(t, today)
      && |ActiveKeys(t3)| == |ActiveKeys(t)| - |Changed(t, t1)| - |Changed(t1, t2)| + |Changed(t2, t3)|
  {
    var t1 := Expire(t, today);
    var t2 := Retire(t1, today);
    var t3 := Revive(t2, today);
    forall k | k in t
      ensures (t1[k].active ==> t[k].active) && (t2[k].active ==> t1[k].active) && (t2[k].active ==> t3[k].active)
    {
      UpdatesGoOneWay(t[k], today);
      UpdatesGoOneWay(t1[k], today);
      UpdatesGoOneWay(t2[k], today);
    }
    hide DeactivateExpired, DeactivateOld, Reactivate, ActiveKeys, Changed;
    SwitchedOffAreCounted(t, t1);
    SwitchedOffAreCounted(t1, t2);
    SwitchedOffAreCounted(t3, t2);
  }

  /** The rows each of the three updates changes. */
  lemma ChangedAre(t: Table, today: Date)
    ensures var t1 := Expire(t, today); var t2 := Retire(t1, today); var t3 := Revive(t2, today);
      && Changed(t, t1) == (set k | k in t && t[k].active && Past(t[k].removal, today))
      && Changed(t1, t2) == (set k | k in t && t[k].active && t[k].removal.None?
                               && Past(t[k].detected, ThreeMonthsBefore(today)))
      && Changed(t2, t3) == (set k | k in t && !t[k].active && FromTodayOn(t[k].removal, today))
  {
    hide ThreeMonthsBefore, Before;
  }

  lemma UpdatesGoOneWay(r: Row, today: Date)
    ensures DeactivateExpired(r, today).active ==> r.active
    ensures DeactivateOld(r, today).active ==> r.active
    ensures r.active ==> Reactivate(r, today).active
  {
  }

  function Deactivated(t: Table, ids: set<Key>): Table {
    map k | k in t :: if k in ids then t[k].(active := false) else t[k]
  }

  function Overdue(t: Table, today: Date): set<Key> {
    set k | k in t && Past(t[k].removal, today) && t[k].active
  }

  /** A row that the next cleanup would leave active only because it is active now. */
  predicate RestsOnFlag(r: Row, today: Date) {
    r.active && r.removal.None? && !Past(r.detected, ThreeMonthsBefore(today))
  }

  /**
   The expiry service first lists the overdue rows and then switches them off by number, in two transactions.
   Whatever was written in between, the next cleanup repairs a switch-off that came too late, exactly when none
   of the listed rows has meanwhile become active without a removal date.
   */
  lemma LateSwitchOffHealsIff(between: Table, ids: set<Key>, today: Date)
    ensures Clean(Deactivated(between, ids), today) == Clean(between, today) <==>
      forall k :: k in ids && k in between ==> !RestsOnFlag(between[k], today)
  {
    var off := Deactivated(between, ids);
    forall k | k in between ensures
      (Clean(off, today)[k] == Clean(between, today)[k] <==> (k in ids ==> !RestsOnFlag(between[k], today)))
    {
      CleanupClosedForm(off, today, k);
      CleanupClosedForm(between, today, k);
    }
    assert Clean(off, today).Keys == Clean(between, today).Keys;
  }

  // ------------------------------------------------------------------------------------ the database

  const CACHE_MAX_SIZE := 1000000
  const CHECK_BATCH := 1000

  datatype Saved = Saved(total: nat, newCount: nat, updatedCount: nat)

  /** What a save works on. */
  function Unique(items: seq<Item>, routable: Routable, today: Date): seq<Item> {
    Capped(Firsts(Kept(items, routable, today), {}), CACHE_MAX_SIZE)
  }

  lemma UniqueIsDistinct(items: seq<Item>, routable: Routable, today: Date)
    ensures DistinctAddresses(Unique(items, routable, today))
  {
    FirstsAreDistinct(Kept(items, routable, today), {});
  }

  // What a save means, in terms of the list it is given.

  /** The addresses of the acceptable items. */
  function Acceptable(items: seq<Item>, routable: Routable, today: Date): set<string> {
    set x | x in items && x.ip != "" && routable(x.ip) && !Past(x.row.removal, today) :: x.ip
  }

  /** No acceptable item before this acceptable one has its address. */
  predicate IsFirst(items: seq<Item>, i: nat, routable: Routable, today: Date) {
    && i < |items| && items[i].ip in Acceptable(items[..i + 1], routable, today)
    && items[i].ip !in Acceptable(items[..i], routable, today)
  }

  /** The row was made from an acceptable item of the list and what was there before. */
  ghost predicate Justified(t: Table, items: seq<Item>, routable: Routable, today: Date, k: Key, r: Row) {
    exists x :: x in items && k == (x.ip, x.source) && x.ip in Acceptable([x], routable, today)
      && Collected(Found(t, k), x, r, today)
  }

  lemma KeptIsAcceptable(items: seq<Item>, routable: Routable, today: Date, x: Item)
    ensures x in Kept(items, routable, today) <==> x in items && x.ip in Acceptable([x], routable, today)
  {
    KeptExactly(items, routable, today, x);
    assert x in Kept(items, routable, today) <==> multiset(Kept(items, routable, today))[x] > 0;
    assert x in items <==> multiset(items)[x] > 0;
  }

  lemma {:induction false} SublistIsDistinct(a: seq<Item>, b: seq<Item>)
    requires Sublist(a, b) && DistinctAddresses(b)
    ensures DistinctAddresses(a)
    decreases b
  {
    if a != [] {
      if a[0] == b[0] && Sublist(a[1..], b[1..]) {
        SublistIsDistinct(a[1..], b[1..]);
        SublistIsShorter(a[1..], b[1..]);
        forall i | 0 < i < |a| ensures a[i].ip != a[0].ip {
          assert a[i] in a[1..];
        }
      } else {
        SublistIsDistinct(a, b[1..]);
      }
    }
  }

  lemma {:induction false} FirstIsKept(
      items: seq<Item>, i: nat, seen: set<string>, routable: Routable, today: Date)
    requires IsFirst(items, i, routable, today) && items[i].ip !in seen
    ensures items[i] in Firsts(Kept(items, routable, today), seen)
    decreases items
  {
    var rest := items[1..];
    if i == 0 {
      assert items[..1] == [items[0]] && Keep(items[0], routable, today);
      assert Kept(items, routable, today)[1..] == Kept(rest, routable, today);
    } else {
      assert items[..i] == [items[0]] + rest[..i - 1] && items[..i + 1] == [items[0]] + rest[..i];
      assert IsFirst(rest, i - 1, routable, today);
      if Keep(items[0], routable, today) {
        assert items[0] in items[..i];
        assert Kept(items, routable, today)[1..] == Kept(rest, routable, today);
        FirstIsKept(rest, i - 1, if items[0].ip in seen then seen else seen + {items[0].ip}, routable, today);
      } else {
        assert Kept(items, routable, today) == Kept(rest, routable, today);
        FirstIsKept(rest, i - 1, seen, routable, today);
      }
    }
  }

  lemma {:induction false} AddressesOfFirsts(items: seq<Item>, seen: set<string>)
    requires forall x :: x in items ==> x.ip != ""
    ensures Addresses(Firsts(items, seen)) == Addresses(items) - seen
    decreases items
  {
    if items != [] {
      var ip := items[0].ip;
      AddressesOfFirsts(items[1..], if ip in seen then seen else seen + {ip});
      if ip !in seen {
        var rest := Firsts(items[1..], seen + {ip});
        assert ([items[0]] + rest)[1..] == rest;
      }
    }
  }

  lemma {:induction false} AddressesOfKept(items: seq<Item>, routable: Routable, today: Date)
    ensures Addresses(Kept(items, routable, today)) == Acceptable(items, routable, today)
    ensures forall x :: x in Kept(items, routable, today) ==> x.ip != ""
    decreases items
  {
    if items != [] {
      var first, rest := items[0], Kept(items[1..], routable, today);
      AddressesOfKept(items[1..], routable, today);
      assert items == [first] + items[1..];
      assert Acceptable(items, routable, today) == Acceptable(items[1..], routable, today)
        + if Keep(first, routable, today) then {first.ip} else {};
      if Keep(first, routable, today) {
        assert ([first] + rest)[1..] == rest && Kept(items, routable, today) == [first] + rest;
      } else {
        assert [] + rest == rest && Kept(items, routable, today) == rest;
      }
    }
  }

  lemma {:induction false} DistinctCount(items: seq<Item>)
    requires DistinctAddresses(items)
    ensures |Addresses(items)| == |items|
    decreases items
  {
    if items != [] {
      DistinctCount(items[1..]);
      AddressesAre(items[1..], items[0].ip);
    }
  }

  /** Within the size limit the save works on one item for every acceptable address. */
  lemma UniqueCovers(items: seq<Item>, routable: Routable, today: Date)
    requires |Acceptable(items, routable, today)| <= 1_000_000
    ensures Unique(items, routable, today) == Firsts(Kept(items, routable, today), {})
    ensures Addresses(Unique(items, routable, today)) == Acceptable(items, routable, today)
    ensures |Unique(items, routable, today)| == |Acceptable(items, routable, today)|
  {
    var kept := Kept(items, routable, today);
    AddressesOfKept(items, routable, today);
    AddressesOfFirsts(kept, {});
    FirstsAreDistinct(kept, {});
    DistinctCount(Firsts(kept, {}));
    assert Addresses(kept) - {} == Addresses(kept);
  }

  lemma NewAreCounted(items: seq<Item>, existing: set<string>)
    requires DistinctAddresses(items)
    ensures |NewItems(items, existing)| == |Addresses(items) - existing|
  {
    CountsAddUp(items, existing);
    DistinctCount(items);
    assert Addresses(items) == (Addresses(items) - existing) + (existing * Addresses(items));
  }

  /** The first acceptable item of every address is the one its row is made from. */
  lemma SaveStoresFirsts(t: Table, items: seq<Item>, i: nat, routable: Routable, today: Date)
    requires |Acceptable(items, routable, today)| <= 1_000_000 && IsFirst(items, i, routable, today)
    ensures var k, after := (items[i].ip, items[i].source), Fold(t, Unique(items, routable, today), today);
      k in after && Collected(Found(t, k), items[i], after[k], today)
  {
    UniqueCovers(items, routable, today);
    UniqueIsDistinct(items, routable, today);
    FirstIsKept(items, i, {}, routable, today);
    FoldRowByRow(t, Unique(items, routable, today), today, KeyOf(items[i]));
    CollectorUpsertCollects(t, items[i], today);
  }

  ghost predicate StoresFirsts(t: Table, after: Table, items: seq<Item>, routable: Routable, today: Date) {
    forall i: nat :: IsFirst(items, i, routable, today) ==>
      var k := (items[i].ip, items[i].source); k in after && Collected(Found(t, k), items[i], after[k], today)
  }

  /** Nothing is lost, and every new or different row is justified by the list. */
  ghost predicate JustifiesRows(t: Table, after: Table, items: seq<Item>, routable: Routable, today: Date) {
    && t.Keys <= after.Keys
    && forall k :: k in after && !(k in t && after[k] == t[k]) ==>
         Justified(t, items, routable, today, k, after[k])
  }

  lemma NothingToSave(t: Table, today: Date)
    ensures Fold(t, [], today) == t
  {
  }

  /** What a save promises about the table, the list being all that is known. */
  lemma SaveKeepsItsPromise(t: Table, items: seq<Item>, kept: seq<Item>, routable: Routable, today: Date)
    requires Sublist(kept, Unique(items, routable, today))
    ensures JustifiesRows(t, Fold(t, kept, today), items, routable, today)
    ensures kept == Unique(items, routable, today) && |Acceptable(items, routable, today)| <= 1_000_000 ==>
      && |kept| == |Acceptable(items, routable, today)|
      && |NewItems(kept, StoredAddresses(t))| == |Acceptable(items, routable, today) - set k | k in t :: k.0|
      && StoresFirsts(t, Fold(t, kept, today), items, routable, today)
  {
    hide Sublist, Unique, Collected, Fold, Acceptable, NewItems, Addresses, Justified;
    forall k
      ensures k in t ==> k in Fold(t, kept, today)
      ensures k in Fold(t, kept, today) && !(k in t && Fold(t, kept, today)[k] == t[k]) ==>
        Justified(t, items, routable, today, k, Fold(t, kept, today)[k])
    {
      SaveJustifiesRows(t, items, kept, routable, today, k);
    }
    if kept == Unique(items, routable, today) && |Acceptable(items, routable, today)| <= 1_000_000 {
      UniqueCovers(items, routable, today);
      UniqueIsDistinct(items, routable, today);
      NewAreCounted(kept, StoredAddresses(t));
      forall i: nat | IsFirst(items, i, routable, today)
        ensures var k := (items[i].ip, items[i].source);
          k in Fold(t, kept, today) && Collected(Found(t, k), items[i], Fold(t, kept, today)[k], today)
      {
        SaveStoresFirsts(t, items, i, routable, today);
      }
    }
  }

  lemma SaveJustifiesRows(t: Table, items: seq<Item>, kept: seq<Item>, routable: Routable, today: Date, k: Key)
    requires Sublist(kept, Unique(items, routable, today))
    ensures k in t ==> k in Fold(t, kept, today)
    ensures k in Fold(t, kept, today) && !(k in t && Fold(t, kept, today)[k] == t[k]) ==>
      Justified(t, items, routable, today, k, Fold(t, kept, today)[k])
  {
    UniqueIsDistinct(items, routable, today);
    SublistIsDistinct(kept, Unique(items, routable, today));
    SublistIsShorter(kept, Unique(items, routable, today));
    FoldRowByRow(t, kept, today, k);
    if i: nat :| i < |kept| && KeyOf(kept[i]) == k {
      assert kept[i] in Unique(items, routable, today);
      FirstsAreDistinct(Kept(items, routable, today), {});
      KeptIsAcceptable(items, routable, today, kept[i]);
      CollectorUpsertCollects(t, kept[i], today);
    }
  }

  /** `failures` counts the database calls that went wrong. */
  class BlacklistDatabase {
    var rows: Table
    var failures: nat

    method Fails() returns (failed: bool)
      modifies this`failures
      ensures failures == if failed then old(failures) + 1 else old(failures)
    {
      failed := *;
      failures := if failed then failures + 1 else failures;
    }

    /** An error ends the lookup, which keeps what it has found so far. */
    method BatchCheckExistingIps(addresses: seq<string>) returns (existing: set<string>, ghost complete: bool)
      modifies this`failures
      ensures failures >= old(failures) && (complete <==> failures == old(failures))
      ensures existing <= (set a | a in addresses && a in StoredAddresses(rows))
      ensures complete ==> existing == set a | a in addresses && a in StoredAddresses(rows)
    {
      existing := {};
      var i := 0;
      while i < |addresses|
        invariant 0 <= i <= |addresses|
        invariant existing == (set a | a in addresses[..i] && a in StoredAddresses(rows)) && failures == old(failures)
      {
        var failed := Fails();
        if failed {
          return existing, false;
        }
        var next := if i + CHECK_BATCH <= |addresses| then i + CHECK_BATCH else |addresses|;
        assert addresses[..next] == addresses[..i] + addresses[i..next];
        existing := existing + set a | a in addresses[i..next] && a in StoredAddresses(rows);
        i := next;
      }
      assert addresses[..i] == addresses;
      return existing, true;
    }

    /**
     One chunk, row by row, inside a transaction. An error of the server spoils the transaction; one of the driver
     itself leaves it as it is, with the first `kept` rows of the chunk in it. Either way the chunk counts as nothing.
     */
    method BatchInsert(work: Table, chunk: seq<Item>, today: Date)
      returns (after: Table, saved: nat, spoiled: bool, ghost kept: nat)
      modifies this`failures
      ensures failures >= old(failures) && kept <= |chunk| && after == Fold(work, chunk[..kept], today)
      ensures if failures == old(failures) then kept == saved == |chunk| && !spoiled else saved == 0
    {
      after, kept := work, 0;
      for i := 0 to |chunk|
        invariant kept == i && after == Fold(work, chunk[..i], today) && failures == old(failures)
      {
        var failed := Fails();
        if failed {
          var server: bool := *;
          return after, 0, server, kept;
        }
        assert Fold(after, [chunk[i]], today) == CollectorUpsert(after, chunk[i], today);
        FoldSplits(work, chunk[..i], [chunk[i]], today);
        assert chunk[..i] + [chunk[i]] == chunk[..i + 1];
        after := CollectorUpsert(after, chunk[i], today);
        kept := i + 1;
      }
      return after, |chunk|, false, kept;
    }

    /**
     All chunks in one transaction; once it is spoiled the later ones fail too. `kept` are the items whose rows are
     in it.
     */
    method InsertChunks(unique: seq<Item>, today: Date, chunkSize: nat)
      returns (work: Table, total: nat, spoiled: bool, ghost kept: seq<Item>)
      requires chunkSize >= 1
      modifies this`failures
      ensures failures >= old(failures) && work == Fold(rows, kept, today) && Sublist(kept, unique) && total <= |kept|
      ensures failures == old(failures) ==> !spoiled && kept == unique && total == |unique|
    {
      work, total, spoiled, kept := rows, 0, false, [];
      var i := 0;
      while i < |unique|
        invariant 0 <= i <= |unique| && failures >= old(failures)
        invariant work == Fold(rows, kept, today) && Sublist(kept, unique[..i]) && total <= |kept|
        invariant failures == old(failures) ==> !spoiled && kept == unique[..i] && total == i
      {
        var next := if i + chunkSize <= |unique| then i + chunkSize else |unique|;
        var chunk := unique[i..next];
        assert unique[..i] + chunk == unique[..next];
        if !spoiled {
          var after, saved, failed, done := BatchInsert(work, chunk, today);
          FoldSplits(rows, kept, chunk[..done], today);
          PrefixIsSublist(chunk, done);
          SublistsJoin(kept, unique[..i], chunk[..done], chunk);
          assert done == |chunk| ==> chunk[..done] == chunk;
          work, total, spoiled, kept := after, total + saved, failed, kept + chunk[..done];
        } else {
          PrefixIsSublist(chunk, 0);
          SublistsJoin(kept, unique[..i], chunk[..0], chunk);
          assert kept + chunk[..0] == kept;
        }
        i := next;
      }
      assert unique[..i] == unique;
    }

    /** The addresses the look-up has found, and the others, which count as new. */
    method CountNewAndStored(unique: seq<Item>) returns (newCount: nat, updatedCount: nat)
      requires DistinctAddresses(unique)
      modifies this`failures
      ensures failures >= old(failures) && newCount + updatedCount == |unique|
      ensures failures == old(failures) ==> newCount == |NewItems(unique, StoredAddresses(rows))|
    {
      var addresses := seq(|unique|, i requires 0 <= i < |unique| => unique[i].ip);
      var existing, complete := BatchCheckExistingIps(addresses);
      forall a | a in addresses ensures a in Addresses(unique) {
        AddressesAre(unique, a);
      }
      assert existing * Addresses(unique) == existing;
      CountsAddUp(unique, existing);
      if complete {
        assert forall i :: 0 <= i < |unique| ==> addresses[i] == unique[i].ip && addresses[i] in addresses;
        OnlyListedMatter(unique, existing, StoredAddresses(rows));
      }
      return |NewItems(unique, existing)|, |existing|;
    }

    /**
     The whole save. The table is either untouched or the one-at-a-time result over `kept`, which lacks items of the
     filtered and deduplicated list only after an error of the driver; with no error it is the whole list, whatever
     the chunk size. The two counts always add up to the list, and after a commit a total of its size means that
     nothing is missing.
     */
    method SaveBlacklistIps(items: seq<Item>, routable: Routable, today: Date, chunkSize: nat)
      returns (r: Saved, ghost committed: bool, ghost kept: seq<Item>, ghost lost: bool)
      requires chunkSize >= 1
      modifies this
      ensures committed ==> !lost
      ensures rows == if committed then Fold(old(rows), kept, today) else old(rows)
      ensures Sublist(kept, Unique(items, routable, today)) && r.total <= |kept|
      ensures r.newCount + r.updatedCount == |Unique(items, routable, today)|
      ensures failures == old(failures) ==>
        r.newCount == |NewItems(Unique(items, routable, today), StoredAddresses(old(rows)))|
      ensures JustifiesRows(old(rows), rows, items, routable, today)
      ensures failures == old(failures) && |Acceptable(items, routable, today)| <= 1_000_000 ==>
        && r.total == |Acceptable(items, routable, today)|
        && r.newCount == |Acceptable(items, routable, today) - set k | k in old(rows) :: k.0|
        && StoresFirsts(old(rows), rows, items, routable, today)
      ensures r.total == |Unique(items, routable, today)| ==> kept == Unique(items, routable, today)
      ensures failures == old(failures) ==> r.total == |Unique(items, routable, today)|
      ensures failures == old(failures) ==> committed || Unique(items, routable, today) == []
    {
      var filtered, _ := FilterInvalidIps(items, routable, today);
      hide AreAcceptable;
      var unique := MemoryOptimizedDedup(filtered, CACHE_MAX_SIZE);
      assert unique == Unique(items, routable, today);
      hide Unique, Fold;
      UniqueIsDistinct(items, routable, today);
      r, committed, kept, lost := SaveUnique(unique, today, chunkSize);
      SaveKeepsItsPromise(old(rows), items, if committed then kept else [], routable, today);
      NothingToSave(old(rows), today);
    }

    /** The end of the transaction: a spoiled one cannot be committed. */
    method Commit(work: Table, spoiled: bool) returns (committed: bool)
      modifies this
      ensures committed ==> !spoiled && failures == old(failures) && rows == work
      ensures !committed ==> (spoiled || failures > old(failures)) && rows == old(rows)
      ensures failures >= old(failures)
    {
      var failed := Fails();
      committed := !spoiled && !failed;
      if committed {
        rows := work;
      }
    }

    /** The save of the filtered and deduplicated list. With `lost` the transaction was spoiled. */
    method SaveUnique(unique: seq<Item>, today: Date, chunkSize: nat)
      returns (r: Saved, ghost committed: bool, ghost kept: seq<Item>, ghost lost: bool)
      requires chunkSize >= 1 && DistinctAddresses(unique)
      modifies this
      ensures failures >= old(failures) && rows == if committed then Fold(old(rows), kept, today) else old(rows)
      ensures committed ==> !lost
      ensures Sublist(kept, unique) && r.total <= |kept| && (r.total == |unique| ==> kept == unique)
      ensures r.newCount + r.updatedCount == |unique|
      ensures failures == old(failures) ==>
        && r.newCount == |NewItems(unique, StoredAddresses(old(rows)))| && r.total == |unique|
        && (committed || unique == [])
    {
      committed, kept, lost := false, [], false;
      if unique == [] {
        return Saved(0, 0, 0), committed, kept, lost;
      }
      var newCount, updatedCount := CountNewAndStored(unique);
      hide Addresses, NewItems, StoredAddresses, Fold;
      var unconnected := Fails();
      if unconnected {
        return Saved(0, newCount, updatedCount), committed, kept, lost;
      }
      var work, total, spoiled;
      work, total, spoiled, kept := InsertChunks(unique, today, chunkSize);
      SublistIsShorter(kept, unique);
      hide Sublist;
      lost := spoiled;
      committed := Commit(work, spoiled);
      r := Saved(total, newCount, updatedCount);
    }

    /** Three updates in order and one commit, or nothing. */
    method CleanupExpiredIps(today: Date)
      returns (expired: nat, retired: nat, revived: nat, ghost committed: bool)
      modifies this
      ensures rows == if committed then Clean(old(rows), today) else old(rows)
      ensures committed <==> failures == old(failures)
      ensures committed ==>
        |ActiveKeys(rows)| == |ActiveKeys(old(rows))| - expired - retired + revived
      ensures expired == |set k | k in old(rows) && old(rows)[k].active && Past(old(rows)[k].removal, today)|
      ensures retired == |set k | k in old(rows) && old(rows)[k].active && old(rows)[k].removal.None?
                            && Past(old(rows)[k].detected, ThreeMonthsBefore(today))|
      ensures revived == |set k | k in old(rows) && !old(rows)[k].active && FromTodayOn(old(rows)[k].removal, today)|
    {
      ActivityIsConserved(rows, today);
      ChangedAre(rows, today);
      hide ThreeMonthsBefore, Past, FromTodayOn, ActiveKeys, Changed, Expire, Retire, Revive, Clean;
      var t1 := Expire(rows, today);
      expired := |Changed(rows, t1)|;
      var t2 := Retire(t1, today);
      retired := |Changed(t1, t2)|;
      var t3 := Revive(t2, today);
      revived := |Changed(t2, t3)|;
      var failed := Fails();
      if failed {
        return expired, retired, revived, false;
      }
      rows := t3;
      return expired, retired, revived, true;
    }

    /** Other writers between two transactions. */
    method OthersWrite()
      modifies this`rows
    {
      var t: Table := *;
      rows := t;
    }

    /** `check_and_deactivate_expired_ips`; without other writers and errors it is `Expire`. */
    method CheckAndDeactivateExpiredIps(today: Date) returns (success: bool, count: nat, ghost between: Table)
      modifies this
      ensures success <==> failures == old(failures)
      ensures rows == if success then Deactivated(between, Overdue(old(rows), today)) else between
      ensures rows.Keys == between.Keys
      ensures success ==>
        var listed := set k | k in old(rows) && old(rows)[k].active && Past(old(rows)[k].removal, today);
        count == |set k | k in between && k in listed|
      ensures !success ==> count == 0
      ensures success ==> forall k :: k in between ==>
        rows[k] == (if k in old(rows) && old(rows)[k].active && Past(old(rows)[k].removal, today)
                    then between[k].(active := false) else between[k])
      ensures success && between == old(rows) ==>
        rows == Expire(old(rows), today) && count == |Overdue(old(rows), today)|
    {
      between := rows;
      var failed := Fails();
      if failed {
        return false, 0, between;
      }
      var ids := Overdue(rows, today);
      ghost var listed := set k | k in rows && rows[k].active && Past(rows[k].removal, today);
      assert listed == ids;
      if ids == {} {
        assert (set k | k in between && k in listed) == {};
        return true, 0, between;
      }
      OthersWrite();
      between := rows;
      failed := Fails();
      if failed {
        return false, 0, between;
      }
      success := true;
      count := |set k | k in ids && k in rows|;
      assert between == old(rows) ==> (set k | k in ids && k in rows) == ids;
      assert (set k | k in ids && k in rows) == set k | k in between && k in listed;
      rows := Deactivated(rows, ids);
    }
  }
}
