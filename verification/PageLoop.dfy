/**
 The page collection loop: strategies in order, pages 1, 2, 3, ... of a strategy, up to three attempts a page.
 The portal is a function of the call: what the given attempt at the given page answers. A page's stable
 projection, compared by value, stands for its SHA-256 signature.
 */
module PageLoop {
  import opened Common

  const PAGE_ATTEMPTS := 3
  const ITEM_CAP := 10_000_000
  const PAGE_SIZE := 50

  /** The six fields that enter the signature, and the rest of the item. */
  datatype Item = Item(stable: string, volatile: string)

  type Page = seq<Item>

  datatype FailureKind = BlockSuspect | SessionExpired | OtherFailure

  /** An answer may also be an error no handler of the loop expects. */
  datatype Answer = Got(page: Page) | Failed(kind: FailureKind) | Unexpected

  /** strategy, page number, attempt. */
  type Portal = (nat, nat, nat) -> Answer

  datatype Error =
    | Blocked(strategy: nat, page: nat, attempts: nat)
    | PageFailed(strategy: nat, page: nat, attempts: nat)

  function Signature(p: Page): seq<string> {
    seq(|p|, i requires 0 <= i < |p| => p[i].stable)
  }

  function Signatures(pages: seq<Page>): set<seq<string>> {
    set i | 0 <= i < |pages| :: Signature(pages[i])
  }

  lemma SignaturesGrow(pages: seq<Page>, p: Page)
    ensures Signatures(pages + [p]) == Signatures(pages) + {Signature(p)}
  {
    var more := pages + [p];
    assert more[|pages|] == p;
    forall i | 0 <= i < |pages| ensures Signature(pages[i]) in Signatures(more) {
      assert more[i] == pages[i];
    }
  }

  function Concat(pages: seq<Page>): seq<Item> {
    if pages == [] then [] else pages[0] + Concat(pages[1..])
  }

  lemma {:induction false} ConcatAppend(pages: seq<Page>, p: Page)
    ensures Concat(pages + [p]) == Concat(pages) + p
  {
    if pages == [] {
      assert [p][1..] == [];
      assert pages + [p] == [p];
    } else {
      ConcatAppend(pages[1..], p);
      assert (pages + [p])[1..] == pages[1..] + [p];
      assert Concat(pages + [p]) == pages[0] + (Concat(pages[1..]) + p);
    }
  }

  // ------------------------------------------------------------------------- one page, three attempts

  datatype PageResult = Delivered(page: Page) | Broken(error: Error) | Crashed

  /** `signals` counts the block signals in a row so far. */
  function AttemptPage(portal: Portal, s: nat, p: nat, threshold: int, attempt: nat, signals: nat): PageResult
    requires 1 <= attempt <= PAGE_ATTEMPTS
    decreases PAGE_ATTEMPTS - attempt
  {
    match portal(s, p, attempt)
    case Got(page) => Delivered(page)
    case Unexpected => Crashed
    case Failed(kind) =>
      var now := if kind == BlockSuspect then signals + 1 else 0;
      if now >= threshold then Broken(Blocked(s, p, attempt))
      else if attempt < PAGE_ATTEMPTS then AttemptPage(portal, s, p, threshold, attempt + 1, now)
      else Broken(PageFailed(s, p, PAGE_ATTEMPTS))
  }

  function PageOf(portal: Portal, s: nat, p: nat, threshold: int): PageResult {
    AttemptPage(portal, s, p, threshold, 1, 0)
  }

  /** Up to attempt `a` every attempt failed, the last `threshold` of them as a suspected block. */
  predicate BlocksThrough(portal: Portal, s: nat, p: nat, threshold: int, a: nat) {
    && 1 <= threshold <= a <= PAGE_ATTEMPTS
    && (forall b: nat | 1 <= b <= a :: portal(s, p, b).Failed?)
    && (forall b: nat | a - threshold < b <= a :: portal(s, p, b) == Failed(BlockSuspect))
  }

  // What a page comes to, in terms of the answers alone.

  /** This attempt fails, and with it a row of block signals reaches the threshold; without one any failure does. */
  ghost predicate Blocks(portal: Portal, s: nat, p: nat, threshold: int, a: nat) {
    && portal(s, p, a).Failed? && threshold <= a
    && forall b: nat | a - threshold < b <= a :: portal(s, p, b) == Failed(BlockSuspect)
  }

  /** All earlier attempts failed, and none of them reached the threshold. */
  ghost predicate Reached(portal: Portal, s: nat, p: nat, threshold: int, a: nat) {
    1 <= a && forall b: nat | 1 <= b < a :: portal(s, p, b).Failed? && !Blocks(portal, s, p, threshold, b)
  }

  /**
   The page of the first attempt that did not fail; an error nothing expects; a block at the first attempt that reaches
   the threshold; or three failures that never did.
   */
  ghost predicate PageGives(portal: Portal, s: nat, p: nat, threshold: int, r: PageResult) {
    match r
    case Delivered(page) =>
      exists a: nat :: 1 <= a <= 3 && Reached(portal, s, p, threshold, a) && portal(s, p, a) == Got(page)
    case Crashed =>
      exists a: nat :: 1 <= a <= 3 && Reached(portal, s, p, threshold, a) && portal(s, p, a) == Unexpected
    case Broken(Blocked(s', p', a)) =>
      s' == s && p' == p && 1 <= a <= 3 && Reached(portal, s, p, threshold, a) && Blocks(portal, s, p, threshold, a)
    case Broken(PageFailed(s', p', n)) =>
      s' == s && p' == p && n == 3 && Reached(portal, s, p, threshold, 4)
  }

  lemma PageGivesOne(portal: Portal, s: nat, p: nat, threshold: int, q: PageResult, r: PageResult)
    requires PageGives(portal, s, p, threshold, q) && PageGives(portal, s, p, threshold, r)
    ensures q == r
  {
    var a := LastAttempt(portal, s, p, threshold, q);
    var b := LastAttempt(portal, s, p, threshold, r);
    assert a == b;
  }

  /** Where the attempts end; 4 when none of them decides. */
  lemma LastAttempt(portal: Portal, s: nat, p: nat, threshold: int, r: PageResult) returns (a: nat)
    requires PageGives(portal, s, p, threshold, r)
    ensures 1 <= a <= 4 && Reached(portal, s, p, threshold, a)
    ensures a == 4 <==> r.Broken? && r.error.PageFailed?
    ensures a < 4 ==> match portal(s, p, a)
      case Got(page) => r == Delivered(page)
      case Unexpected => r == Crashed
      case Failed(_) => Blocks(portal, s, p, threshold, a) && r == Broken(Blocked(s, p, a))
    ensures a == 4 ==> r == Broken(PageFailed(s, p, 3))
  {
    match r
    case Delivered(page) =>
      a :| 1 <= a <= 3 && Reached(portal, s, p, threshold, a) && portal(s, p, a) == Got(page);
    case Crashed =>
      a :| 1 <= a <= 3 && Reached(portal, s, p, threshold, a) && portal(s, p, a) == Unexpected;
    case Broken(Blocked(_, _, attempts)) => a := attempts;
    case Broken(PageFailed(_, _, _)) => a := 4;
  }

  lemma {:induction false} AttemptGives(portal: Portal, s: nat, p: nat, threshold: int, attempt: nat, signals: nat)
    requires 1 <= attempt <= PAGE_ATTEMPTS && Reached(portal, s, p, threshold, attempt) && signals < attempt
    requires forall b: nat | attempt - signals <= b < attempt :: portal(s, p, b) == Failed(BlockSuspect)
    requires attempt - 1 > signals ==> portal(s, p, attempt - 1 - signals) != Failed(BlockSuspect)
    ensures PageGives(portal, s, p, threshold, AttemptPage(portal, s, p, threshold, attempt, signals))
    decreases PAGE_ATTEMPTS - attempt
  {
    if portal(s, p, attempt).Failed? {
      var now := if portal(s, p, attempt).kind == BlockSuspect then signals + 1 else 0;
      assert Blocks(portal, s, p, threshold, attempt) <==> now >= threshold;
      if now < threshold {
        assert Reached(portal, s, p, threshold, attempt + 1);
        if attempt < PAGE_ATTEMPTS {
          AttemptGives(portal, s, p, threshold, attempt + 1, now);
        }
      }
    }
  }

  /** So the three attempts come to exactly what the answers say. */
  lemma PageOfExactly(portal: Portal, s: nat, p: nat, threshold: int, r: PageResult)
    ensures PageOf(portal, s, p, threshold) == r <==> PageGives(portal, s, p, threshold, r)
  {
    AttemptGives(portal, s, p, threshold, 1, 0);
    if PageGives(portal, s, p, threshold, r) {
      PageGivesOne(portal, s, p, threshold, PageOf(portal, s, p, threshold), r);
    }
  }

  predicate ReportedBlocked(portal: Portal, s: nat, p: nat, threshold: int) {
    PageOf(portal, s, p, threshold).Broken? && PageOf(portal, s, p, threshold).error.Blocked?
  }

  /**
   A page is reported as blocked exactly when some attempt ends a row of block signals as long as the threshold, with
   only failures before it. A threshold above three turns the block error off; one of zero or less makes it of any
   failure at the first attempt.
   */
  lemma BlockedExactly(portal: Portal, s: nat, p: nat, threshold: int)
    ensures threshold >= 1 ==> (ReportedBlocked(portal, s, p, threshold) <==>
      BlocksThrough(portal, s, p, threshold, 1) || BlocksThrough(portal, s, p, threshold, 2)
      || BlocksThrough(portal, s, p, threshold, 3))
    ensures threshold > PAGE_ATTEMPTS ==> !ReportedBlocked(portal, s, p, threshold)
    ensures threshold <= 0 ==> (ReportedBlocked(portal, s, p, threshold) <==> portal(s, p, 1).Failed?)
  {
    var a1, a2, a3 := portal(s, p, 1), portal(s, p, 2), portal(s, p, 3);
    var s1 := if a1 == Failed(BlockSuspect) then 1 else 0;
    var s2 := if a2 == Failed(BlockSuspect) then s1 + 1 else 0;
    var third := AttemptPage(portal, s, p, threshold, 3, s2);
    var second := AttemptPage(portal, s, p, threshold, 2, s1);
    assert a2.Failed? && s2 < threshold ==> second == third;
    assert a1.Failed? && s1 < threshold ==> PageOf(portal, s, p, threshold) == second;
  }

  // ----------------------------------------------------------------------------- pages of one strategy

  ghost predicate Gives(portal: Portal, s: nat, p: nat, threshold: int, page: Page) {
    PageGives(portal, s, p, threshold, Delivered(page))
  }

  /** The same stable fields, item by item. */
  predicate Repeats(p: Page, q: Page) {
    |p| == |q| && forall i :: 0 <= i < |p| ==> p[i].stable == q[i].stable
  }

  ghost predicate GivesAgain(portal: Portal, s: nat, p: nat, threshold: int, earlier: Page) {
    exists page :: Gives(portal, s, p, threshold, page) && Repeats(earlier, page)
  }

  /** The signature tells pages apart exactly by their stable fields. */
  lemma SignatureTells(p: Page, q: Page)
    ensures Signature(p) == Signature(q) <==> Repeats(p, q)
  {
    if Signature(p) == Signature(q) {
      forall i | 0 <= i < |p| ensures p[i].stable == q[i].stable {
        assert Signature(p)[i] == Signature(q)[i];
      }
    }
  }

  /** Pages 1..n as delivered, none of them a reason to stop before the next. */
  ghost predicate Accepted(portal: Portal, s: nat, threshold: int, limit: Option<nat>, pages: seq<Page>) {
    && (limit.Some? ==> |pages| <= limit.value)
    && (forall i: nat :: i < |pages| ==> Gives(portal, s, i + 1, threshold, pages[i]) && pages[i] != [])
    && (forall i, j :: 0 <= i < j < |pages| ==> !Repeats(pages[i], pages[j]))
    && (forall k :: 0 <= k < |pages| ==> |Concat(pages[..k])| < 10_000_000)
  }

  /** The strategy ends after these pages: the limit, the item cap, or an empty next page. */
  ghost predicate Ends(portal: Portal, s: nat, threshold: int, limit: Option<nat>, pages: seq<Page>) {
    || limit == Some(|pages|)
    || |Concat(pages)| >= 10_000_000
    || Gives(portal, s, |pages| + 1, threshold, [])
  }

  /** The next page raises this error: it broke, or it repeats an earlier page. */
  ghost predicate Breaks(portal: Portal, s: nat, threshold: int, pages: seq<Page>, error: Error) {
    || PageGives(portal, s, |pages| + 1, threshold, Broken(error))
    || (error == PageFailed(s, |pages| + 1, 1)
        && exists i :: 0 <= i < |pages| && GivesAgain(portal, s, |pages| + 1, threshold, pages[i]))
  }

  datatype StrategyResult = Done(items: seq<Item>) | Broke(error: Error) | Lost

  /** The whole specification of one strategy. */
  ghost predicate StrategySpec(
    portal: Portal, s: nat, threshold: int, limit: Option<nat>, pages: seq<Page>, r: StrategyResult)
  {
    && Accepted(portal, s, threshold, limit, pages)
    && match r
       case Done(items) => Ends(portal, s, threshold, limit, pages) && items == Concat(pages)
       case Broke(error) => !Ends(portal, s, threshold, limit, pages) && Breaks(portal, s, threshold, pages, error)
       case Lost => !Ends(portal, s, threshold, limit, pages) && PageGives(portal, s, |pages| + 1, threshold, Crashed)
  }

  /** Two accepted page lists agree as far as both go. */
  lemma AcceptedPagesAgree(
    portal: Portal, s: nat, threshold: int, limit: Option<nat>, a: seq<Page>, b: seq<Page>)
    requires Accepted(portal, s, threshold, limit, a) && Accepted(portal, s, threshold, limit, b) && |a| <= |b|
    ensures a == b[..|a|]
  {
    forall i: nat | i < |a| ensures a[i] == b[i] {
      PageGivesOne(portal, s, i + 1, threshold, Delivered(a[i]), Delivered(b[i]));
    }
  }

  /** The specification leaves no choice: the portal alone decides the pages and the result. */
  lemma StrategyIsDetermined(
    portal: Portal, s: nat, threshold: int, limit: Option<nat>,
    a: seq<Page>, r: StrategyResult, b: seq<Page>, q: StrategyResult)
    requires StrategySpec(portal, s, threshold, limit, a, r) && StrategySpec(portal, s, threshold, limit, b, q)
    ensures a == b && r == q
  {
    if |a| <= |b| {
      StopsAtTheSamePage(portal, s, threshold, limit, a, r, b, q);
    } else {
      StopsAtTheSamePage(portal, s, threshold, limit, b, q, a, r);
    }
  }

  lemma StopsAtTheSamePage(
    portal: Portal, s: nat, threshold: int, limit: Option<nat>,
    a: seq<Page>, r: StrategyResult, b: seq<Page>, q: StrategyResult)
    requires StrategySpec(portal, s, threshold, limit, a, r) && StrategySpec(portal, s, threshold, limit, b, q)
    requires |a| <= |b|
    ensures a == b && r == q
  {
    AcceptedPagesAgree(portal, s, threshold, limit, a, b);
    GoesOn(portal, s, threshold, limit, b, |a|);
    assert b[..|b|] == b;
  }

  /** Before the last accepted page nothing ends the strategy and nothing breaks it. */
  lemma GoesOn(portal: Portal, s: nat, threshold: int, limit: Option<nat>, pages: seq<Page>, n: nat)
    requires Accepted(portal, s, threshold, limit, pages) && n <= |pages|
    ensures n < |pages| ==>
      && !Ends(portal, s, threshold, limit, pages[..n])
      && !PageGives(portal, s, n + 1, threshold, Crashed)
      && forall error :: !Breaks(portal, s, threshold, pages[..n], error)
  {
    if n < |pages| {
      var next := n + 1;
      assert Gives(portal, s, next, threshold, pages[n]) && pages[n] != [];
      forall r | PageGives(portal, s, next, threshold, r) ensures r == Delivered(pages[n]) {
        PageGivesOne(portal, s, next, threshold, r, Delivered(pages[n]));
      }
      forall i | 0 <= i < n ensures !GivesAgain(portal, s, n + 1, threshold, pages[..n][i]) {
        assert pages[..n][i] == pages[i];
      }
    }
  }

  /** Short of the limit and the cap it is the next page that decides whether the strategy ends. */
  lemma NextPageDecides(
    portal: Portal, s: nat, threshold: int, limit: Option<nat>, pages: seq<Page>, next: PageResult)
    requires PageGives(portal, s, |pages| + 1, threshold, next)
    requires limit != Some(|pages|) && |Concat(pages)| < 10_000_000
    ensures Ends(portal, s, threshold, limit, pages) <==> next == Delivered([])
  {
    if Gives(portal, s, |pages| + 1, threshold, []) {
      PageGivesOne(portal, s, |pages| + 1, threshold, next, Delivered([]));
    }
  }

  // ---------------------------------------------------------------------------------- the methods

  /** Up to three attempts at one page. */
  method TryPage(portal: Portal, s: nat, p: nat, threshold: int, signals: nat) returns (r: PageResult)
    ensures r == AttemptPage(portal, s, p, threshold, 1, signals)
    ensures signals == 0 ==> PageGives(portal, s, p, threshold, r)
  {
    AttemptGives(portal, s, p, threshold, 1, 0);
    var consecutive: nat := signals;
    for attempt: nat := 1 to PAGE_ATTEMPTS + 1
      invariant attempt <= PAGE_ATTEMPTS ==>
        AttemptPage(portal, s, p, threshold, attempt, consecutive) == AttemptPage(portal, s, p, threshold, 1, signals)
      invariant attempt > PAGE_ATTEMPTS ==>
        AttemptPage(portal, s, p, threshold, 1, signals) == Broken(PageFailed(s, p, PAGE_ATTEMPTS))
    {
      match portal(s, p, attempt)
      case Got(page) =>
        return Delivered(page);
      case Unexpected =>
        return Crashed;
      case Failed(kind) =>
        consecutive := if kind == BlockSuspect then consecutive + 1 else 0;
        if consecutive >= threshold {
          return Broken(Blocked(s, p, attempt));
        }
    }
    return Broken(PageFailed(s, p, PAGE_ATTEMPTS));
  }

  /** All pages of one strategy. Without a page limit the items still missing to the cap measure what is left. */
  method CollectStrategy(portal: Portal, s: nat, threshold: int, limit: Option<nat>)
    returns (r: StrategyResult, ghost pages: seq<Page>)
    ensures StrategySpec(portal, s, threshold, limit, pages, r)
    ensures exists ps :: StrategySpec(portal, s, threshold, limit, ps, r)
  {
    hide PageGives, AttemptPage, Repeats, Signature;
    var data: seq<Item> := [];
    var seen: set<seq<string>> := {};
    var pageNum: nat := 1;
    var consecutive: nat := 0;
    pages := [];
    while limit.None? || pageNum <= limit.value
      invariant Accepted(portal, s, threshold, limit, pages) && data == Concat(pages) && |data| < ITEM_CAP
      invariant pageNum == |pages| + 1 && consecutive == 0
      invariant seen == Signatures(pages)
      decreases ITEM_CAP - |data|
    {
      var result := TryPage(portal, s, pageNum, threshold, consecutive);
      NextPageDecides(portal, s, threshold, limit, pages, result);
      match result
      case Broken(error) =>
        assert StrategySpec(portal, s, threshold, limit, pages, Broke(error));
        return Broke(error), pages;
      case Crashed =>
        assert StrategySpec(portal, s, threshold, limit, pages, Lost);
        return Lost, pages;
      case Delivered(page) =>
        consecutive := 0;
        if page == [] {
          break;
        }
        if Signature(page) in seen {
          ghost var i: nat :| 0 <= i < |pages| && Signature(pages[i]) == Signature(page);
          SignatureTells(pages[i], page);
          assert GivesAgain(portal, s, pageNum, threshold, pages[i]);
          assert StrategySpec(portal, s, threshold, limit, pages, Broke(PageFailed(s, pageNum, 1)));
          return Broke(PageFailed(s, pageNum, 1)), pages;
        }
        forall i | 0 <= i < |pages| ensures !Repeats(pages[i], page) {
          SignatureTells(pages[i], page);
        }
        ConcatAppend(pages, page);
        SignaturesGrow(pages, page);
        AcceptedGrows(portal, s, threshold, limit, pages, page);
        seen := seen + {Signature(page)};
        pages := pages + [page];
        data := data + page;
        if |data| >= ITEM_CAP {
          break;
        }
        pageNum := pageNum + 1;
    }
    assert StrategySpec(portal, s, threshold, limit, pages, Done(data));
    return Done(data), pages;
  }

  lemma AcceptedGrows(portal: Portal, s: nat, threshold: int, limit: Option<nat>, pages: seq<Page>, page: Page)
    requires Accepted(portal, s, threshold, limit, pages) && |Concat(pages)| < 10_000_000
    requires Gives(portal, s, |pages| + 1, threshold, page) && page != []
    requires limit.Some? ==> |pages| < limit.value
    requires forall i :: 0 <= i < |pages| ==> !Repeats(pages[i], page)
    ensures Accepted(portal, s, threshold, limit, pages + [page])
  {
    hide PageGives, Repeats, Concat;
    var more := pages + [page];
    forall k | 0 <= k < |more| ensures |Concat(more[..k])| < 10_000_000 {
      assert more[..k] == pages[..k];
      assert pages[..|pages|] == pages;
    }
  }

  // -------------------------------------------------------------------------------- the whole call

  function EffectivePageSize(pageSize: nat): nat {
    if pageSize <= PAGE_SIZE then pageSize else PAGE_SIZE
  }

  /** The page limit in portal pages for a limit given in requested pages. */
  function EffectiveMaxPages(pageSize: nat, maxPages: nat): nat {
    if EffectivePageSize(pageSize) == pageSize then maxPages
    else
      var pages := (pageSize * maxPages + PAGE_SIZE - 1) / PAGE_SIZE;
      if pages < 1 then 1 else pages
  }

  /** The portal pages hold the requested capacity, one fewer would not, and only a zero request gets one anyway. */
  lemma EffectiveLimitKeepsCapacity(pageSize: nat, maxPages: nat)
    ensures EffectiveMaxPages(pageSize, maxPages) * EffectivePageSize(pageSize) >= pageSize * maxPages
    ensures maxPages > 0 && pageSize > 0 ==>
      (EffectiveMaxPages(pageSize, maxPages) - 1) * EffectivePageSize(pageSize) < pageSize * maxPages
    ensures maxPages == 0 ==> EffectiveMaxPages(pageSize, maxPages) == if pageSize > 50 then 1 else 0
    ensures EffectivePageSize(pageSize) <= 50 && (pageSize <= 50 ==> EffectiveMaxPages(pageSize, maxPages) == maxPages)
    ensures EffectivePageSize(pageSize) == pageSize || EffectivePageSize(pageSize) == 50 < pageSize
  {
    if pageSize > PAGE_SIZE {
      if maxPages > 0 {
        assert pageSize * maxPages >= pageSize;
      }
    } else if maxPages > 0 && pageSize > 0 {
      assert (maxPages - 1) * pageSize == maxPages * pageSize - pageSize;
    }
  }

  datatype CollectionResult = Returned(items: seq<Item>) | Raised(error: Error)

  /** Fresh rows of the Excel download of a strategy, no rows when it is off, empty or stale; None when it raises. */
  type Excel = nat -> Option<seq<Item>>

  /** The processing of the finished list; None when it raises. */
  type Processing = seq<Item> -> Option<seq<Item>>

  /** What one call works with; a missing page limit switches Excel off. */
  datatype Call = Call(portal: Portal, excel: Excel, processing: Processing, threshold: int, limit: Option<nat>)

  /** A finished list is processed; an empty one stays as it is, and so does one that cannot be processed. */
  predicate Finishes(c: Call, items: seq<Item>, list: seq<Item>) {
    if items == [] || c.processing(items).None? then list == items else c.processing(items) == Some(list)
  }

  method Finish(c: Call, items: seq<Item>) returns (list: seq<Item>)
    ensures Finishes(c, items, list)
  {
    if items == [] {
      return [];
    }
    var processed := c.processing(items);
    return if processed.Some? then processed.value else items;
  }

  ghost predicate StrategyGives(c: Call, s: nat, r: StrategyResult) {
    exists pages :: StrategySpec(c.portal, s, c.threshold, c.limit, pages, r)
  }

  function ExcelOf(c: Call, s: nat): Option<seq<Item>> {
    if c.limit.Some? then c.excel(s) else Some([])
  }

  /** What the pages give is looked at only when Excel has no rows. */
  ghost predicate PagesGive(c: Call, s: nat, r: StrategyResult) {
    ExcelOf(c, s) == Some([]) && StrategyGives(c, s, r)
  }

  ghost predicate NothingFrom(c: Call, s: nat) {
    PagesGive(c, s, Done([]))
  }

  /** The items of the first strategy that has any: its Excel rows, or all its pages to the end. */
  ghost predicate ItemsOf(c: Call, s: nat, items: seq<Item>) {
    items != [] && (ExcelOf(c, s) == Some(items) || PagesGive(c, s, Done(items)))
  }

  /** An error that is not the loop's own, from the download or from a page. */
  ghost predicate LostTo(c: Call, s: nat) {
    ExcelOf(c, s).None? || PagesGive(c, s, Lost)
  }

  ghost predicate FirstUseful(c: Call, s: nat) {
    forall i: nat :: i < s ==> NothingFrom(c, i)
  }

  /**
   Main result: the list is all or nothing. What is returned is made of the complete yield of the first strategy that
   has one, processed or, when that fails, as it is; an error is that strategy's own; without a yield the list is
   empty, because no strategy had anything or because an unexpected error, in the download too, threw the pages
   away. No list is ever cut short by a failed page.
   */
  method CollectBlacklistData(authenticated: bool, c: Call, strategies: nat)
    returns (r: CollectionResult, ghost s: nat, ghost items: seq<Item>)
    ensures !authenticated ==> r == Returned([])
    ensures authenticated ==> s <= strategies && FirstUseful(c, s)
    ensures authenticated && s == strategies ==> r == Returned([])
    ensures authenticated && s < strategies ==>
      match r
      case Raised(error) => PagesGive(c, s, Broke(error))
      case Returned(list) =>
        Finishes(c, items, list) && if items == [] then LostTo(c, s) else ItemsOf(c, s, items)
  {
    s, items := 0, [];
    if !authenticated {
      return Returned([]), s, items;
    }
    for i := 0 to strategies
      invariant FirstUseful(c, i) && items == []
    {
      s := i;
      if c.limit.Some? {
        var rows := c.excel(i);
        if rows.None? {
          return Returned([]), s, items;
        }
        if rows.value != [] {
          var list := Finish(c, rows.value);
          return Returned(list), s, rows.value;
        }
      }
      var result, pages := CollectStrategy(c.portal, i, c.threshold, c.limit);
      assert StrategyGives(c, i, result);
      match result
      case Broke(error) =>
        return Raised(error), s, items;
      case Lost =>
        return Returned([]), s, items;
      case Done(found) =>
        if found != [] {
          var list := Finish(c, found);
          return Returned(list), s, found;
        }
    }
    return Returned([]), strategies, items;
  }
}
