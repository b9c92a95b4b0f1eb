/** What happens to collected items before they are saved: validity, one item per address and source, enhancement. */
module PostProcessing {
  import opened Common

  const OWN_SOURCE := "REGTECH"

  /** `rest` stands for the fields that only enhancement rewrites. */
  datatype Item = Item(ip: string, source: Option<string>, rest: string)

  function SourceOf(item: Item): string {
    if item.source.Some? then item.source.value else OWN_SOURCE
  }

  /** Two items are the same to the deduplication when this text is. */
  function KeyOf(item: Item): string {
    item.ip + ":" + SourceOf(item)
  }

  function AddressOf(item: Item): string {
    item.ip
  }

  /** The text itself, with the collector's own name for a missing source. */
  lemma KeyTextIs(item: Item)
    ensures item.source.Some? ==> KeyOf(item) == item.ip + ":" + item.source.value
    ensures item.source.None? ==> KeyOf(item) == item.ip + ":REGTECH"
  {
    assert ":" + "REGTECH" == ":REGTECH";
  }

  /** Addresses may contain colons, source names do not. */
  predicate PlainSources(items: seq<Item>) {
    forall i :: 0 <= i < |items| ==> ':' !in SourceOf(items[i])
  }

  lemma LongerFrontHoldsColon(a: string, s: string, b: string, t: string) returns (m: string)
    requires a + ":" + s == b + ":" + t && |a| > |b|
    ensures a == b + ":" + m && t == m + ":" + s
  {
    var text := a + ":" + s;
    m := a[|b| + 1..];
    assert a == text[..|a|] && text == (b + ":" + t);
    assert text[..|b|] == b && text[|b|] == ':';
    assert a[..|b|] == b && a[|b|] == ':';
    assert text[|b| + 1..] == t;
    assert t == m + ":" + s;
  }

  /** The joined text begins with `y`'s address, a colon and some text that `y`'s source begins with, and a colon. */
  predicate Overlaps(x: Item, y: Item, m: string) {
    x.ip == y.ip + ":" + m && SourceOf(y) == m + ":" + SourceOf(x)
  }

  /**
   Two items share a joined text exactly when address and source are the same, or one address is the other, a colon
   and a text that the other's source begins with, followed by a colon.
   */
  lemma KeysCollideIff(x: Item, y: Item)
    ensures KeyOf(x) == KeyOf(y) <==>
      (x.ip == y.ip && SourceOf(x) == SourceOf(y)) || (exists m :: Overlaps(x, y, m)) || (exists m :: Overlaps(y, x, m))
  {
    if KeyOf(x) == KeyOf(y) {
      if |x.ip| > |y.ip| {
        var m := LongerFrontHoldsColon(x.ip, SourceOf(x), y.ip, SourceOf(y));
        assert Overlaps(x, y, m);
      } else if |y.ip| > |x.ip| {
        var m := LongerFrontHoldsColon(y.ip, SourceOf(y), x.ip, SourceOf(x));
        assert Overlaps(y, x, m);
      } else {
        assert x.ip == KeyOf(x)[..|x.ip|] && y.ip == KeyOf(y)[..|x.ip|];
        assert SourceOf(x) == KeyOf(x)[|x.ip| + 1..] && SourceOf(y) == KeyOf(y)[|x.ip| + 1..];
      }
    }
    forall m | Overlaps(x, y, m) ensures KeyOf(x) == KeyOf(y) {
      assert y.ip + ":" + m + ":" + SourceOf(x) == y.ip + ":" + (m + ":" + SourceOf(x));
    }
    forall m | Overlaps(y, x, m) ensures KeyOf(x) == KeyOf(y) {
      assert x.ip + ":" + m + ":" + SourceOf(y) == x.ip + ":" + (m + ":" + SourceOf(y));
    }
  }

  /** The first item of every key not seen before, in order. */
  function Firsts(items: seq<Item>, key: Item -> string, seen: set<string>): seq<Item> {
    if items == [] then []
    else if key(items[0]) in seen then Firsts(items[1..], key, seen)
    else [items[0]] + Firsts(items[1..], key, seen + {key(items[0])})
  }

  /** What one more item adds: itself, unless its key was seen before or is that of an earlier item. */
  lemma {:induction false} FirstsOfOneMore(items: seq<Item>, x: Item, key: Item -> string, seen: set<string>)
    ensures Firsts(items + [x], key, seen) == Firsts(items, key, seen)
      + (if key(x) in seen || (exists i :: 0 <= i < |items| && key(items[i]) == key(x)) then [] else [x])
    ensures Firsts([], key, seen) == []
    decreases items
  {
    if items == [] {
      assert [] + [x] == [x] && [x][1..] == [];
    } else {
      var first, rest := items[0], items[1..];
      var next := if key(first) in seen then seen else seen + {key(first)};
      assert (items + [x])[1..] == rest + [x];
      assert items == [first] + rest;
      FirstsOfOneMore(rest, x, key, next);
      assert (exists i :: 0 <= i < |items| && key(items[i]) == key(x)) <==>
        key(first) == key(x) || exists i :: 0 <= i < |rest| && key(rest[i]) == key(x) by {
        if i :| 0 <= i < |items| && key(items[i]) == key(x) {
          assert i > 0 ==> rest[i - 1] == items[i];
        }
        if i :| 0 <= i < |rest| && key(rest[i]) == key(x) {
          assert items[i + 1] == rest[i];
        }
      }
    }
  }

  /** No item that is the first of its address shares its joined text with an earlier item. */
  predicate NoneShadowed(items: seq<Item>, keys: set<string>, ips: set<string>)
    decreases items
  {
    items == [] || (
      && (items[0].ip !in ips ==> KeyOf(items[0]) !in keys)
      && NoneShadowed(items[1..], keys + {KeyOf(items[0])}, ips + {items[0].ip}))
  }

  lemma {:induction false} FirstsAreNew(items: seq<Item>, key: Item -> string, seen: set<string>)
    ensures forall i :: 0 <= i < |Firsts(items, key, seen)| ==> key(Firsts(items, key, seen)[i]) !in seen
    decreases items
  {
    if items != [] {
      FirstsAreNew(items[1..], key, seen);
      FirstsAreNew(items[1..], key, seen + {key(items[0])});
    }
  }

  lemma {:induction false} FirstsComeFromTheList(items: seq<Item>, key: Item -> string, seen: set<string>)
    ensures forall x :: x in Firsts(items, key, seen) ==> x in items
    decreases items
  {
    if items != [] {
      FirstsComeFromTheList(items[1..], key, seen);
      FirstsComeFromTheList(items[1..], key, seen + {key(items[0])});
      assert items == [items[0]] + items[1..];
    }
  }

  /** Keeping the firsts of every joined text first changes nothing for the firsts of every address exactly then. */
  lemma {:induction false} FinerFirstIsHarmlessIff(items: seq<Item>, keys: set<string>, ips: set<string>)
    ensures Firsts(Firsts(items, KeyOf, keys), AddressOf, ips) == Firsts(items, AddressOf, ips)
      <==> NoneShadowed(items, keys, ips)
    decreases items
  {
    if items != [] {
      var x, rest := items[0], items[1..];
      var moreKeys, moreIps := keys + {KeyOf(x)}, ips + {x.ip};
      assert KeyOf(x) in keys ==> moreKeys == keys;
      assert x.ip in ips ==> moreIps == ips;
      FinerFirstIsHarmlessIff(rest, moreKeys, moreIps);
      var kept := Firsts(rest, KeyOf, moreKeys);
      assert ([x] + kept)[1..] == kept;
      if KeyOf(x) in keys && x.ip !in ips {
        FirstsAreNew(items, KeyOf, keys);
        FirstsComeFromTheList(Firsts(items, KeyOf, keys), AddressOf, ips);
        assert Firsts(items, AddressOf, ips)[0] == x && x !in Firsts(items, KeyOf, keys);
      } else if x.ip !in ips {
        var a, b := Firsts(kept, AddressOf, moreIps), Firsts(rest, AddressOf, moreIps);
        assert [x] + a == [x] + b <==> a == b by {
          assert ([x] + a)[1..] == a && ([x] + b)[1..] == b;
        }
      }
    }
  }

  /** Source names without a colon never shadow anything. */
  lemma {:induction false} PlainSourcesShadowNothing(seen: seq<Item>, items: seq<Item>)
    requires PlainSources(seen + items)
    ensures NoneShadowed(items, set x | x in seen :: KeyOf(x), set x | x in seen :: x.ip)
    decreases items
  {
    if items != [] {
      var x := items[0];
      assert (seen + [x]) + items[1..] == seen + items;
      assert (seen + items)[|seen|] == x;
      if KeyOf(x) in (set y | y in seen :: KeyOf(y)) {
        var y :| y in seen && KeyOf(y) == KeyOf(x);
        var i :| 0 <= i < |seen| && seen[i] == y;
        assert (seen + items)[i] == y;
        KeysCollideIff(x, y);
      }
      PlainSourcesShadowNothing(seen + [x], items[1..]);
      assert (set y | y in seen + [x] :: KeyOf(y)) == (set y | y in seen :: KeyOf(y)) + {KeyOf(x)};
      assert (set y | y in seen + [x] :: y.ip) == (set y | y in seen :: y.ip) + {x.ip};
    }
  }

  method FastDeduplication(data: seq<Item>) returns (unique: seq<Item>)
    ensures unique == Firsts(data, KeyOf, {})
  {
    hide KeyOf, SourceOf;
    unique := [];
    var seen: set<string> := {};
    for i := 0 to |data|
      invariant unique + Firsts(data[i..], KeyOf, seen) == Firsts(data, KeyOf, {})
    {
      assert data[i..][1..] == data[i + 1..];
      if KeyOf(data[i]) !in seen {
        ghost var rest := Firsts(data[i + 1..], KeyOf, seen + {KeyOf(data[i])});
        assert unique + ([data[i]] + rest) == (unique + [data[i]]) + rest;
        seen := seen + {KeyOf(data[i])};
        unique := unique + [data[i]];
      }
    }
    assert data[|data|..] == [];
    assert unique + [] == unique;
  }

  // ------------------------------------------------------------------------------ the whole step

  /** Trimming, address syntax, and what enhancement makes of the other fields. */
  datatype Rules = Rules(strip: string -> string, valid: string -> bool, enhance: Item -> string)

  function ValidItems(items: seq<Item>, rules: Rules): seq<Item> {
    if items == [] then []
    else
      var ip := rules.strip(items[0].ip);
      (if rules.valid(ip) then [items[0].(ip := ip)] else []) + ValidItems(items[1..], rules)
  }

  /** What one more item adds: itself with its address trimmed, when that is valid. */
  lemma {:induction false} ValidItemsOfOneMore(items: seq<Item>, x: Item, rules: Rules)
    ensures ValidItems(items + [x], rules) == ValidItems(items, rules)
      + (if rules.valid(rules.strip(x.ip)) then [Item(rules.strip(x.ip), x.source, x.rest)] else [])
    ensures ValidItems([], rules) == []
    decreases items
  {
    if items == [] {
      assert [] + [x] == [x] && [x][1..] == [];
    } else {
      ValidItemsOfOneMore(items[1..], x, rules);
      assert (items + [x])[1..] == items[1..] + [x];
    }
  }

  function Enhanced(item: Item, rules: Rules): Item {
    Item(item.ip, Some(OWN_SOURCE), rules.enhance(item))
  }

  function EnhancedAll(items: seq<Item>, rules: Rules): seq<Item> {
    seq(|items|, i requires 0 <= i < |items| => Enhanced(items[i], rules))
  }

  method PostProcess(collected: seq<Item>, rules: Rules) returns (r: seq<Item>)
    ensures r == EnhancedAll(Firsts(ValidItems(collected, rules), KeyOf, {}), rules)
    ensures var unique := Firsts(ValidItems(collected, rules), KeyOf, {});
      |r| == |unique| && forall i :: 0 <= i < |r| ==>
        r[i].ip == unique[i].ip && r[i].source == Some("REGTECH") && r[i].rest == rules.enhance(unique[i])
  {
    var valid: seq<Item> := [];
    for i := 0 to |collected|
      invariant valid + ValidItems(collected[i..], rules) == ValidItems(collected, rules)
    {
      assert collected[i..][1..] == collected[i + 1..];
      var ip := rules.strip(collected[i].ip);
      ghost var rest := ValidItems(collected[i + 1..], rules);
      if rules.valid(ip) {
        assert valid + ([collected[i].(ip := ip)] + rest) == (valid + [collected[i].(ip := ip)]) + rest;
        valid := valid + [collected[i].(ip := ip)];
      } else {
        assert [] + rest == rest;
      }
    }
    assert collected[|collected|..] == [];
    assert valid + [] == valid;
    var unique := FastDeduplication(valid);
    r := EnhancedAll(unique, rules);
  }

  lemma {:induction false} EnhancementKeepsFirsts(items: seq<Item>, ips: set<string>, rules: Rules)
    ensures Firsts(EnhancedAll(items, rules), AddressOf, ips) == EnhancedAll(Firsts(items, AddressOf, ips), rules)
    decreases items
  {
    if items != [] {
      var x, rest := items[0], items[1..];
      assert EnhancedAll(items, rules)[0] == Enhanced(x, rules);
      assert EnhancedAll(items, rules)[1..] == EnhancedAll(rest, rules);
      var next := if x.ip in ips then ips else ips + {x.ip};
      EnhancementKeepsFirsts(rest, next, rules);
      if x.ip !in ips {
        assert EnhancedAll([x] + Firsts(rest, AddressOf, next), rules)
          == [Enhanced(x, rules)] + EnhancedAll(Firsts(rest, AddressOf, next), rules);
      }
    }
  }

  /**
   Main result: among the valid items, deduplicating by address and source first leaves the first item of every
   address exactly when none of these shares its joined text with an item before it. Sources without a colon never do.
   */
  lemma FirstsOfAddressesSurviveIff(collected: seq<Item>, rules: Rules)
    ensures var valid := ValidItems(collected, rules);
      Firsts(Firsts(valid, KeyOf, {}), AddressOf, {}) == Firsts(valid, AddressOf, {}) <==> NoneShadowed(valid, {}, {})
    ensures PlainSources(collected) ==> NoneShadowed(ValidItems(collected, rules), {}, {})
  {
    var valid := ValidItems(collected, rules);
    FinerFirstIsHarmlessIff(valid, {}, {});
    if PlainSources(collected) {
      ValidItemsArePlain(collected, rules);
      var none: seq<Item> := [];
      assert none + valid == valid;
      PlainSourcesShadowNothing(none, valid);
      assert (set x | x in none :: KeyOf(x)) == {} && (set x | x in none :: x.ip) == {};
    }
  }

  /** Then what a later deduplication by address keeps of the processed list is those first items, enhanced. */
  lemma SavedItemIsTheFirstValidOne(collected: seq<Item>, rules: Rules)
    requires NoneShadowed(ValidItems(collected, rules), {}, {})
    ensures Firsts(EnhancedAll(Firsts(ValidItems(collected, rules), KeyOf, {}), rules), AddressOf, {})
      == EnhancedAll(Firsts(ValidItems(collected, rules), AddressOf, {}), rules)
  {
    FirstsOfAddressesSurviveIff(collected, rules);
    EnhancementKeepsFirsts(Firsts(ValidItems(collected, rules), KeyOf, {}), {}, rules);
  }

  lemma {:induction false} ValidItemsArePlain(items: seq<Item>, rules: Rules)
    requires PlainSources(items)
    ensures PlainSources(ValidItems(items, rules))
    decreases items
  {
    if items != [] {
      ValidItemsArePlain(items[1..], rules);
      assert SourceOf(items[0].(ip := rules.strip(items[0].ip))) == SourceOf(items[0]);
    }
  }

  /** The address passes the validity filter as it is. */
  predicate Accepted(rules: Rules, ip: string) {
    rules.strip(ip) == ip && rules.valid(ip)
  }

  /**
   A source name with a colon would do harm: two routable addresses could share one text, and the second would be
   lost. The collectors send no such name.
   */
  lemma ColonInSourceLosesAnAddress(rules: Rules) returns (x: Item, y: Item)
    requires Accepted(rules, "2606:4700::1") && Accepted(rules, "2606:4700::1:2")
    ensures x.ip == "2606:4700::1" && y.ip == "2606:4700::1:2"
    ensures Firsts(ValidItems([x, y], rules), KeyOf, {}) == [x]
    ensures Firsts(ValidItems([x, y], rules), AddressOf, {}) == [x, y]
  {
    x, y := Item("2606:4700::1", Some("2:a"), ""), Item("2606:4700::1:2", Some("a"), "");
    assert [x, y][1..] == [y] && [y][1..] == [];
    assert ValidItems([y], rules) == [y] + ValidItems([y][1..], rules) == [y];
    assert ValidItems([x, y], rules) == [x] + ValidItems([y], rules) == [x, y];
    assert KeyOf(x) == "2606:4700::1:2:a" == KeyOf(y);
    assert |x.ip| != |y.ip|;
    OfTwo(x, y, KeyOf);
    OfTwo(x, y, AddressOf);
  }

  lemma OfTwo(x: Item, y: Item, key: Item -> string)
    ensures Firsts([x, y], key, {}) == if key(x) == key(y) then [x] else [x, y]
  {
    var seen := {} + {key(x)};
    assert [x, y][1..] == [y] && [y][1..] == [];
    assert Firsts([y][1..], key, seen) == [] && Firsts([y][1..], key, seen + {key(y)}) == [];
    assert Firsts([y], key, seen) == if key(x) == key(y) then [] else [y];
    assert Firsts([x, y], key, {}) == [x] + Firsts([y], key, seen);
  }
}
