/** Merging what several feeds say about one address. */
module MultiSource {
  import opened Common

  datatype Source = Named(name: string) | Combined(count: nat)

  /** Fields an item may lack are optional; `rest` stands for the fields that merging only copies. */
  datatype Item = Item(
    ip: Option<string>, source: Option<Source>, reason: Option<string>, confidence: Option<int>,
    detections: Option<int>, date: Option<string>, sources: seq<Source>, rest: string)

  datatype Result<T> = Ok(value: T) | KeyError

  predicate HasAddress(item: Item) {
    item.ip.Some? && item.ip.value != ""
  }

  function Confidence(item: Item): int {
    if item.confidence.Some? then item.confidence.value else 0
  }

  function Detections(item: Item): int {
    if item.detections.Some? then item.detections.value else 1
  }

  function ReasonLength(item: Item): int {
    if item.reason.Some? then |item.reason.value| else 0
  }

  function SourceOf(item: Item): Source {
    if item.source.Some? then item.source.value else Named("Unknown")
  }

  /** What counts for a field that is missing. */
  lemma MissingFields(item: Item)
    ensures HasAddress(item) <==> item.ip !in {None, Some("")}
    ensures Dated(item) <==> item.date !in {None, Some("")}
    ensures Some(Confidence(item)) == item.confidence || (item.confidence.None? && Confidence(item) == 0)
    ensures Some(Detections(item)) == item.detections || (item.detections.None? && Detections(item) == 1)
    ensures Some(SourceOf(item)) == item.source || (item.source.None? && SourceOf(item) == Named("Unknown"))
    ensures item.reason.Some? ==> ReasonLength(item) == |item.reason.value|
    ensures item.reason.None? ==> ReasonLength(item) == 0
  {
  }

  // ------------------------------------------------------------------------------ max, sum, min

  /** The first item with the greatest key. */
  function FirstMax(items: seq<Item>, key: Item -> int): Item
    requires items != []
  {
    if |items| == 1 then items[0]
    else
      var best, last := FirstMax(items[..|items| - 1], key), items[|items| - 1];
      if key(last) > key(best) then last else best
  }

  lemma {:induction false} FirstMaxIsFirstAndGreatest(items: seq<Item>, key: Item -> int) returns (i: nat)
    requires items != []
    ensures i < |items| && items[i] == FirstMax(items, key)
    ensures forall j | 0 <= j < |items| :: key(items[j]) <= key(items[i]) && (j < i ==> key(items[j]) < key(items[i]))
    decreases items
  {
    if |items| == 1 {
      i := 0;
    } else {
      i := FirstMaxIsFirstAndGreatest(items[..|items| - 1], key);
      assert forall j :: 0 <= j < |items| - 1 ==> items[..|items| - 1][j] == items[j];
      if key(items[|items| - 1]) > key(items[i]) {
        i := |items| - 1;
      }
    }
  }

  function Sum(items: seq<Item>, key: Item -> int): int {
    if items == [] then 0 else Sum(items[..|items| - 1], key) + key(items[|items| - 1])
  }

  lemma {:induction false} SumSplits(a: seq<Item>, b: seq<Item>, key: Item -> int)
    ensures Sum(a + b, key) == Sum(a, key) + Sum(b, key) && (|b| == 1 ==> Sum(b, key) == key(b[0]))
    decreases b
  {
    assert |b| == 1 ==> b[..0] == [];
    if b == [] {
      assert a + b == a;
    } else {
      assert (a + b)[..|a + b| - 1] == a + b[..|b| - 1];
      SumSplits(a, b[..|b| - 1], key);
    }
  }

  lemma {:induction false} SumBetween(items: seq<Item>, key: Item -> int, low: int)
    requires forall i :: 0 <= i < |items| ==> low <= key(items[i])
    ensures Sum(items, key) >= low * |items|
    decreases items
  {
    if items != [] {
      SumBetween(items[..|items| - 1], key, low);
    }
  }

  /** Division that cuts toward zero. */
  function Quotient(a: int, n: nat): int
    requires n > 0
  {
    if a >= 0 then a / n else -(-a / n)
  }

  /** Text order. */
  predicate Below(a: string, b: string) {
    b != [] && (a == [] || a[0] < b[0] || (a[0] == b[0] && Below(a[1..], b[1..])))
  }

  /** The first difference decides, or the end of the shorter text. */
  predicate DecidedAt(a: string, b: string, k: nat) {
    k <= |a| && k < |b| && a[..k] == b[..k] && (k == |a| || a[k] < b[k])
  }

  lemma BelowExactly(a: string, b: string)
    ensures Below(a, b) <==> exists k: nat :: DecidedAt(a, b, k)
  {
    if Below(a, b) {
      var k := BelowAt(a, b);
    }
    forall k: nat | DecidedAt(a, b, k) ensures Below(a, b) {
      BelowFrom(a, b, k);
    }
  }

  lemma {:induction false} BelowAt(a: string, b: string) returns (k: nat)
    requires Below(a, b)
    ensures DecidedAt(a, b, k)
    decreases a
  {
    if a == [] || a[0] < b[0] {
      k := 0;
    } else {
      k := BelowAt(a[1..], b[1..]);
      k := k + 1;
      assert a[..k] == [a[0]] + a[1..][..k - 1] && b[..k] == [b[0]] + b[1..][..k - 1];
    }
  }

  lemma {:induction false} BelowFrom(a: string, b: string, k: nat)
    requires DecidedAt(a, b, k)
    ensures Below(a, b)
    decreases k
  {
    if k > 0 {
      assert a[..k][0] == b[..k][0];
      assert a[1..][..k - 1] == a[..k][1..] && b[1..][..k - 1] == b[..k][1..];
      BelowFrom(a[1..], b[1..], k - 1);
    }
  }

  lemma {:induction false} BelowOrNot(a: string, b: string, c: string)
    requires !Below(a, b) && !Below(b, c)
    ensures !Below(a, c)
    decreases a
  {
    if a != [] && b != [] && c != [] && a[0] == b[0] && b[0] == c[0] {
      BelowOrNot(a[1..], b[1..], c[1..]);
    }
  }

  lemma {:induction false} NotBelowSelf(a: string)
    ensures !Below(a, a)
    decreases a
  {
    if a != [] {
      NotBelowSelf(a[1..]);
    }
  }

  lemma {:induction false} BelowOneWay(a: string, b: string)
    requires Below(a, b)
    ensures !Below(b, a)
    decreases a
  {
    if a != [] && a[0] == b[0] {
      BelowOneWay(a[1..], b[1..]);
    }
  }

  predicate Dated(item: Item) {
    item.date.Some? && item.date.value != ""
  }

  function Earliest(items: seq<Item>): Option<string> {
    if items == [] then None
    else
      var earlier, last := Earliest(items[..|items| - 1]), items[|items| - 1];
      if Dated(last) && (earlier.None? || Below(last.date.value, earlier.value)) then Some(last.date.value) else earlier
  }

  lemma {:induction false} EarliestIsLeast(items: seq<Item>)
    ensures Earliest(items).None? <==> forall i :: 0 <= i < |items| ==> !Dated(items[i])
    ensures Earliest(items).Some? ==>
      exists i :: 0 <= i < |items| && Dated(items[i]) && items[i].date == Earliest(items)
    ensures forall i | 0 <= i < |items| && Dated(items[i]) ::
      Earliest(items).Some? && !Below(items[i].date.value, Earliest(items).value)
    decreases items
  {
    if items != [] {
      var front, last := items[..|items| - 1], items[|items| - 1];
      EarliestIsLeast(front);
      assert forall i :: 0 <= i < |front| ==> front[i] == items[i];
      assert items[|items| - 1] == last;
      if Dated(last) && Earliest(front).Some? && Below(last.date.value, Earliest(front).value) {
        BelowOneWay(last.date.value, Earliest(front).value);
        NotBelowSelf(last.date.value);
        forall i | 0 <= i < |items| && Dated(items[i]) ensures !Below(items[i].date.value, last.date.value) {
          if i < |front| {
            BelowOrNot(front[i].date.value, Earliest(front).value, last.date.value);
          }
        }
      } else if Dated(last) {
        NotBelowSelf(last.date.value);
      }
    }
  }

  // ---------------------------------------------------------------------------------- one group

  function MergedConfidence(items: seq<Item>): int
    requires items != []
  {
    var raised := Quotient(Sum(items, Confidence), |items|) + 2 * |items|;
    if raised <= 100 then raised else 100
  }

  /** `_merge_multiple_sources`. */
  function MergeMultipleSources(items: seq<Item>): Result<Item>
    requires items != []
  {
    var base := FirstMax(items, Confidence);
    var spoken := FirstMax(items, ReasonLength);
    if spoken.reason.None? then KeyError
    else Ok(base.(
      source := Some(Combined(|items|)), sources := seq(|items|, i requires 0 <= i < |items| => SourceOf(items[i])),
      reason := spoken.reason, confidence := Some(MergedConfidence(items)),
      detections := Some(Sum(items, Detections)), date := Earliest(items)))
  }

  /** It raises exactly when no item of the group says anything and the first lacks the field altogether. */
  lemma MergeRaisesIff(items: seq<Item>)
    requires items != []
    ensures MergeMultipleSources(items).KeyError? <==>
      items[0].reason.None? && forall i :: 0 <= i < |items| ==> ReasonLength(items[i]) == 0
  {
    var i := FirstMaxIsFirstAndGreatest(items, ReasonLength);
  }

  /** The index of the first item that leads by this key. */
  predicate Leads(items: seq<Item>, key: Item -> int, i: nat) {
    && i < |items|
    && forall j | 0 <= j < |items| :: key(items[j]) <= key(items[i]) && (j < i ==> key(items[j]) < key(items[i]))
  }

  /** The average is cut toward zero. */
  predicate IsAverage(sum: int, n: nat, average: int) {
    if sum >= 0 then average * n <= sum < average * n + n else average * n - n < sum <= average * n
  }

  /**
   What merging makes of a group: the fields of the first item of the greatest confidence; the first of the longest
   reasons; every source in order; the detections of all together; the earliest date; and the average confidence,
   raised by two for every item, up to 100.
   */
  ghost predicate Merges(items: seq<Item>, r: Item) {
    MergesTexts(items, r) && MergesNumbers(items, r) && MergesDates(items, r)
  }

  ghost predicate MergesTexts(items: seq<Item>, r: Item) {
    && (exists i: nat :: Leads(items, Confidence, i) && r.rest == items[i].rest && r.ip == items[i].ip)
    && (exists i: nat :: Leads(items, ReasonLength, i) && r.reason == items[i].reason && r.reason.Some?)
    && r.source == Some(Combined(|items|)) && |r.sources| == |items|
    && (forall i :: 0 <= i < |items| ==> r.sources[i] == SourceOf(items[i]))
  }

  ghost predicate MergesNumbers(items: seq<Item>, r: Item) {
    && r.detections == Some(Sum(items, Detections))
    && (exists average :: IsAverage(Sum(items, Confidence), |items|, average)
                          && r.confidence == Some(if average + 2 * |items| <= 100 then average + 2 * |items| else 100))
  }

  predicate MergesDates(items: seq<Item>, r: Item) {
    && (r.date.None? <==> forall i :: 0 <= i < |items| ==> !Dated(items[i]))
    && (r.date.Some? ==> exists i :: 0 <= i < |items| && Dated(items[i]) && items[i].date == r.date)
    && (forall i :: 0 <= i < |items| && Dated(items[i]) ==>
          r.date.Some? && !Below(items[i].date.value, r.date.value))
  }

  lemma MergeMerges(items: seq<Item>)
    requires items != [] && MergeMultipleSources(items).Ok?
    ensures Merges(items, MergeMultipleSources(items).value)
  {
    var r := MergeMultipleSources(items).value;
    assert MergesTexts(items, r) by {
      var i := FirstMaxIsFirstAndGreatest(items, Confidence);
      assert Leads(items, Confidence, i);
      var j := FirstMaxIsFirstAndGreatest(items, ReasonLength);
      assert Leads(items, ReasonLength, j);
      hide FirstMax, Sum, Earliest, Leads;
    }
    assert MergesNumbers(items, r) by {
      QuotientIsAverage(Sum(items, Confidence), |items|);
      hide FirstMax, Sum, Earliest, Quotient, IsAverage;
    }
    assert MergesDates(items, r) by {
      EarliestIsLeast(items);
      hide FirstMax, Sum, Earliest, Below, Dated;
    }
    hide MergesTexts, MergesNumbers, MergesDates;
  }

  lemma QuotientIsAverage(sum: int, n: nat)
    requires n > 0
    ensures IsAverage(sum, n, Quotient(sum, n))
  {
    var q := if sum >= 0 then sum / n else -sum / n;
    var rest := if sum >= 0 then sum % n else -sum % n;
    assert q * n + rest == if sum >= 0 then sum else -sum;
  }

  lemma ConfidenceStaysInRange(items: seq<Item>, low: int)
    requires items != [] && 0 <= low
    requires forall i :: 0 <= i < |items| ==> low <= Confidence(items[i]) <= 100
    ensures low <= MergedConfidence(items) <= 100
  {
    SumBetween(items, Confidence, low);
    QuotientAtLeast(Sum(items, Confidence), low, |items|);
    hide Sum;
    assert low <= Confidence(items[0]);
  }

  lemma ProductsAreOrdered(x: int, y: int, n: nat)
    requires x <= y
    ensures x * n <= y * n
  {
  }

  lemma QuotientAtLeast(a: int, low: int, n: nat)
    requires n > 0 && a >= low * n
    ensures a / n >= low
  {
    assert a == (a / n) * n + a % n;
    if a / n <= low - 1 {
      ProductsAreOrdered(a / n, low - 1, n);
    }
  }

  // -------------------------------------------------------------------------------- all the groups

  function GroupOf(items: seq<Item>, ip: string): seq<Item> {
    if items == [] then []
    else
      var front, last := GroupOf(items[..|items| - 1], ip), items[|items| - 1];
      if last.ip == Some(ip) then front + [last] else front
  }

  /** The addresses, each where it is first seen. */
  function Addresses(items: seq<Item>): seq<string> {
    if items == [] then []
    else
      var front, last := Addresses(items[..|items| - 1]), items[|items| - 1];
      if HasAddress(last) && last.ip.value !in front then front + [last.ip.value] else front
  }

  predicate Distinct(ips: seq<string>) {
    forall i, j :: 0 <= i < j < |ips| ==> ips[i] != ips[j]
  }

  lemma {:induction false} AddressesAreDistinct(items: seq<Item>)
    ensures Distinct(Addresses(items)) && "" !in Addresses(items)
    ensures forall ip :: ip in Addresses(items) ==> GroupOf(items, ip) != []
    decreases items
  {
    if items != [] {
      AddressesAreDistinct(items[..|items| - 1]);
    }
  }

  predicate FirstSeen(items: seq<Item>, ip: string, i: nat) {
    i < |items| && items[i].ip == Some(ip) && forall j :: 0 <= j < i ==> items[j].ip != Some(ip)
  }

  /** Every address that occurs. */
  lemma {:induction false} AddressesAre(items: seq<Item>, ip: string)
    ensures ip in Addresses(items) <==> ip != "" && exists i :: 0 <= i < |items| && items[i].ip == Some(ip)
    decreases items
  {
    if items != [] {
      var front, last := items[..|items| - 1], items[|items| - 1];
      AddressesAre(front, ip);
      assert items == front + [last];
    }
  }

  /** They come in the order of their first occurrences. */
  lemma {:induction false} AddressesInOrder(items: seq<Item>, j: nat, k: nat, a: nat, b: nat)
    requires j < k < |Addresses(items)|
    requires FirstSeen(items, Addresses(items)[j], a) && FirstSeen(items, Addresses(items)[k], b)
    ensures a < b
    decreases items
  {
    var front, last := items[..|items| - 1], items[|items| - 1];
    assert items == front + [last];
    AddressesAre(front, Addresses(front)[j]);
    assert FirstSeen(front, Addresses(front)[j], a);
    if k < |Addresses(front)| {
      AddressesAre(front, Addresses(front)[k]);
      AddressesInOrder(front, j, k, a, b);
    } else {
      AddressesAre(front, last.ip.value);
      AddressesAreDistinct(items);
    }
  }

  lemma {:induction false} GroupsHoldTheirAddress(items: seq<Item>, ip: string)
    ensures forall item :: item in GroupOf(items, ip) ==> item.ip == Some(ip) && item in items
    decreases items
  {
    if items != [] {
      GroupsHoldTheirAddress(items[..|items| - 1], ip);
    }
  }

  function Enhanced(group: seq<Item>): Result<Item>
    requires group != []
  {
    if |group| == 1 then Ok(group[0]) else MergeMultipleSources(group)
  }

  /** The result for the addresses given, in order; the first group that raises ends it. */
  function EnhancedAll(items: seq<Item>, ips: seq<string>): Result<seq<Item>>
    requires forall ip :: ip in ips ==> GroupOf(items, ip) != []
  {
    if ips == [] then Ok([])
    else
      var front := EnhancedAll(items, ips[..|ips| - 1]);
      if front.KeyError? then KeyError
      else
        var last := Enhanced(GroupOf(items, ips[|ips| - 1]));
        if last.KeyError? then KeyError else Ok(front.value + [last.value])
  }

  function Deduplicated(items: seq<Item>): Result<seq<Item>> {
    AddressesAreDistinct(items);
    EnhancedAll(items, Addresses(items))
  }

  lemma {:induction false} EnhancedAllAt(items: seq<Item>, ips: seq<string>)
    requires forall ip :: ip in ips ==> GroupOf(items, ip) != []
    ensures EnhancedAll(items, ips).KeyError? <==>
      exists k :: 0 <= k < |ips| && Enhanced(GroupOf(items, ips[k])).KeyError?
    ensures EnhancedAll(items, ips).Ok? ==> |EnhancedAll(items, ips).value| == |ips|
    ensures EnhancedAll(items, ips).Ok? ==>
      forall k | 0 <= k < |ips| :: Enhanced(GroupOf(items, ips[k])) == Ok(EnhancedAll(items, ips).value[k])
    decreases ips
  {
    if ips != [] {
      var front := ips[..|ips| - 1];
      EnhancedAllAt(items, front);
      assert forall k :: 0 <= k < |front| ==> front[k] == ips[k];
    }
  }

  /** The dictionary of lists, with its keys in insertion order, after the items given. */
  ghost predicate Grouped(items: seq<Item>, keys: seq<string>, groups: map<string, seq<Item>>) {
    && keys == Addresses(items) && (forall ip :: ip in groups <==> ip in keys)
    && (forall ip :: ip in groups ==> groups[ip] == GroupOf(items, ip))
    && (forall ip :: ip !in groups && ip != "" ==> GroupOf(items, ip) == [])
  }

  lemma GroupedStep(items: seq<Item>, item: Item, keys: seq<string>, groups: map<string, seq<Item>>)
    requires Grouped(items, keys, groups)
    ensures !HasAddress(item) ==> Grouped(items + [item], keys, groups)
    ensures HasAddress(item) && item.ip.value in groups ==>
      Grouped(items + [item], keys, groups[item.ip.value := groups[item.ip.value] + [item]])
    ensures HasAddress(item) && item.ip.value !in groups ==>
      Grouped(items + [item], keys + [item.ip.value], groups[item.ip.value := [item]])
  {
    assert (items + [item])[..|items|] == items;
    AddressesAreDistinct(items);
  }

  /** `_deduplicate_and_enhance`: a dictionary of lists in insertion order, then one item per list. */
  method DeduplicateAndEnhance(items: seq<Item>) returns (r: Result<seq<Item>>)
    ensures r == Deduplicated(items)
  {
    var keys: seq<string>, groups: map<string, seq<Item>> := [], map[];
    for i := 0 to |items|
      invariant Grouped(items[..i], keys, groups)
    {
      var item := items[i];
      GroupedStep(items[..i], item, keys, groups);
      assert items[..i + 1] == items[..i] + [item];
      hide Grouped, Addresses, GroupOf;
      if HasAddress(item) {
        var ip := item.ip.value;
        if ip !in groups {
          keys, groups := keys + [ip], groups[ip := []];
        }
        groups := groups[ip := groups[ip] + [item]];
      }
    }
    assert items[..|items|] == items;
    AddressesAreDistinct(items);
    var enhanced := [];
    for i := 0 to |keys|
      invariant EnhancedAll(items, keys[..i]) == Ok(enhanced)
    {
      assert keys[..i + 1][..i] == keys[..i] && keys[..i + 1][i] == keys[i];
      var merged := Enhanced(groups[keys[i]]);
      if merged.KeyError? {
        EnhancedAllAt(items, keys);
        return KeyError;
      }
      enhanced := enhanced + [merged.value];
    }
    assert keys[..|keys|] == keys;
    r := Ok(enhanced);
  }

  // ------------------------------------------------------------------------------------ theorems

  lemma EnhancedKeeps(items: seq<Item>, ip: string)
    requires GroupOf(items, ip) != [] && Enhanced(GroupOf(items, ip)).Ok?
    ensures Enhanced(GroupOf(items, ip)).value.ip == Some(ip)
    ensures Detections(Enhanced(GroupOf(items, ip)).value) == Sum(GroupOf(items, ip), Detections)
  {
    var group := GroupOf(items, ip);
    GroupsHoldTheirAddress(items, ip);
    var i := FirstMaxIsFirstAndGreatest(group, Confidence);
    assert group[i] in group;
    if |group| == 1 {
      assert group[..0] == [];
      assert Sum(group, Detections) == Detections(group[0]);
    }
  }

  /** One item per address, in the order the addresses were first seen. */
  lemma OneItemPerAddress(items: seq<Item>, k: nat)
    requires Deduplicated(items).Ok?
    ensures Distinct(Addresses(items)) && |Deduplicated(items).value| == |Addresses(items)|
    ensures k < |Addresses(items)| ==> Deduplicated(items).value[k].ip == Some(Addresses(items)[k])
  {
    AddressesAreDistinct(items);
    EnhancedAllAt(items, Addresses(items));
    if k < |Addresses(items)| {
      assert Addresses(items)[k] in Addresses(items);
      EnhancedKeeps(items, Addresses(items)[k]);
    }
  }

  /** A single item stays as it is, and a group is merged. */
  lemma ItemOfAnAddress(items: seq<Item>, k: nat)
    requires Deduplicated(items).Ok? && k < |Addresses(items)|
    ensures k < |Deduplicated(items).value|
    ensures var group, r := GroupOf(items, Addresses(items)[k]), Deduplicated(items).value[k];
      group != [] && if |group| == 1 then r == group[0] else Merges(group, r)
  {
    AddressesAreDistinct(items);
    EnhancedAllAt(items, Addresses(items));
    assert Addresses(items)[k] in Addresses(items);
    if |GroupOf(items, Addresses(items)[k])| > 1 {
      MergeMerges(GroupOf(items, Addresses(items)[k]));
    }
  }

  /** The whole fails exactly when some address is in two items or more, all silent, the first without the field. */
  lemma DeduplicationRaisesIff(items: seq<Item>)
    ensures Deduplicated(items).KeyError? <==>
      (exists k :: 0 <= k < |Addresses(items)| && Silent(items, Addresses(items)[k]))
  {
    AddressesAreDistinct(items);
    EnhancedAllAt(items, Addresses(items));
    forall k | 0 <= k < |Addresses(items)|
      ensures Enhanced(GroupOf(items, Addresses(items)[k])).KeyError? <==> Silent(items, Addresses(items)[k])
    {
      assert Addresses(items)[k] in Addresses(items);
      MergeRaisesIff(GroupOf(items, Addresses(items)[k]));
    }
  }

  predicate Silent(items: seq<Item>, ip: string) {
    var group := GroupOf(items, ip);
    |group| >= 2 && group[0].reason.None? && forall i :: 0 <= i < |group| ==> ReasonLength(group[i]) == 0
  }

  /** The items of an address in a list whose k-th item has the k-th of some distinct addresses. */
  lemma {:induction false} GroupInAligned(out: seq<Item>, ips: seq<string>, ip: string)
    requires |out| == |ips| && Distinct(ips) && forall k :: 0 <= k < |ips| ==> out[k].ip == Some(ips[k])
    ensures ip !in ips ==> GroupOf(out, ip) == []
    ensures forall k :: 0 <= k < |ips| && ips[k] == ip ==> GroupOf(out, ip) == [out[k]]
    decreases out
  {
    if out != [] {
      var n := |out| - 1;
      GroupInAligned(out[..n], ips[..n], ip);
      assert ips == ips[..n] + [ips[n]];
      if ips[n] == ip {
        assert ip !in ips[..n];
      }
    }
  }

  lemma {:induction false} AddressesInAligned(out: seq<Item>, ips: seq<string>)
    requires |out| == |ips| && Distinct(ips) && "" !in ips && forall k :: 0 <= k < |ips| ==> out[k].ip == Some(ips[k])
    ensures Addresses(out) == ips
    decreases out
  {
    if out != [] {
      var n := |out| - 1;
      assert ips == ips[..n] + [ips[n]];
      AddressesInAligned(out[..n], ips[..n]);
    }
  }

  lemma Aligned(items: seq<Item>)
    requires Deduplicated(items).Ok?
    ensures var out, ips := Deduplicated(items).value, Addresses(items);
      |out| == |ips| && Distinct(ips) && "" !in ips && forall k :: 0 <= k < |ips| ==> out[k].ip == Some(ips[k])
  {
    AddressesAreDistinct(items);
    OneItemPerAddress(items, 0);
    forall k | 0 <= k < |Addresses(items)| ensures Deduplicated(items).value[k].ip == Some(Addresses(items)[k]) {
      OneItemPerAddress(items, k);
    }
  }

  /** Main result: for every address, the detections after merging are those before, a missing count being one. */
  lemma DetectionsAreConserved(items: seq<Item>, ip: string)
    requires Deduplicated(items).Ok? && ip != ""
    ensures Sum(GroupOf(Deduplicated(items).value, ip), Detections) == Sum(GroupOf(items, ip), Detections)
  {
    var out, ips := Deduplicated(items).value, Addresses(items);
    Aligned(items);
    GroupInAligned(out, ips, ip);
    if ip in ips {
      var k :| 0 <= k < |ips| && ips[k] == ip;
      AddressesAreDistinct(items);
      EnhancedAllAt(items, ips);
      EnhancedKeeps(items, ip);
      assert [out[k]][..0] == [];
      assert Sum([out[k]], Detections) == Detections(out[k]);
    } else {
      NoGroup(items, ip);
    }
  }

  lemma {:induction false} NoGroup(items: seq<Item>, ip: string)
    requires ip != "" && ip !in Addresses(items)
    ensures GroupOf(items, ip) == []
    decreases items
  {
    if items != [] {
      NoGroup(items[..|items| - 1], ip);
    }
  }

  /** A second pass changes nothing. */
  lemma SecondPassIsIdentity(items: seq<Item>)
    requires Deduplicated(items).Ok?
    ensures Deduplicated(Deduplicated(items).value) == Deduplicated(items)
  {
    var out, ips := Deduplicated(items).value, Addresses(items);
    Aligned(items);
    AddressesInAligned(out, ips);
    AddressesAreDistinct(out);
    EnhancedAllAt(out, ips);
    forall k | 0 <= k < |ips| ensures Enhanced(GroupOf(out, ips[k])) == Ok(out[k]) {
      GroupInAligned(out, ips, ips[k]);
    }
    assert Deduplicated(out).value == out;
  }

  lemma {:induction false} GroupSplits(a: seq<Item>, b: seq<Item>, ip: string)
    ensures GroupOf(a + b, ip) == GroupOf(a, ip) + GroupOf(b, ip)
    ensures |b| == 1 ==> GroupOf(b, ip) == if b[0].ip == Some(ip) then b else []
    decreases b
  {
    assert |b| == 1 ==> b[..0] == [] && [b[0]] == b;
    if b == [] {
      assert a + b == a;
    } else {
      assert (a + b)[..|a + b| - 1] == a + b[..|b| - 1];
      GroupSplits(a, b[..|b| - 1], ip);
    }
  }

  /** Merging in instalments counts the detections of every address as merging all at once does. */
  lemma InstalmentsCountTheSame(a: seq<Item>, b: seq<Item>, ip: string)
    requires ip != "" && Deduplicated(a).Ok? && Deduplicated(Deduplicated(a).value + b).Ok? && Deduplicated(a + b).Ok?
    ensures Sum(GroupOf(Deduplicated(Deduplicated(a).value + b).value, ip), Detections)
      == Sum(GroupOf(Deduplicated(a + b).value, ip), Detections)
  {
    var first := Deduplicated(a).value;
    DetectionsAreConserved(a, ip);
    DetectionsAreConserved(first + b, ip);
    DetectionsAreConserved(a + b, ip);
    GroupSplits(first, b, ip);
    GroupSplits(a, b, ip);
    SumSplits(GroupOf(first, ip), GroupOf(b, ip), Detections);
    SumSplits(GroupOf(a, ip), GroupOf(b, ip), Detections);
  }

  /** Every confidence in the result lies between the least of its group and 100. */
  lemma ConfidencesStayInRange(items: seq<Item>, k: nat, low: int)
    requires Deduplicated(items).Ok? && k < |Addresses(items)| && 0 <= low
    requires forall item :: item in GroupOf(items, Addresses(items)[k]) ==> low <= Confidence(item) <= 100
    ensures k < |Deduplicated(items).value| && low <= Confidence(Deduplicated(items).value[k]) <= 100
  {
    AddressesAreDistinct(items);
    EnhancedAllAt(items, Addresses(items));
    assert Addresses(items)[k] in Addresses(items);
    var group := GroupOf(items, Addresses(items)[k]);
    forall i | 0 <= i < |group| ensures low <= Confidence(group[i]) <= 100 {
      assert group[i] in group;
    }
    ConfidenceStaysInRange(group, low);
  }
}
