/**
 Scanning an inbox for changes, page by page, while the mailbox changes underneath.

 UIDs are strictly ascending within an epoch (RFC 9051 section 2.3.1.1), so a cursor tells what is new.
 */
module ImapScan {
  import opened Options

  // ----- the server -----

  /** `next` is UIDNEXT: every message has a smaller UID, every later one will have at least it. */
  datatype Mailbox = Mailbox(epoch: int, uids: set<int>, next: int)

  predicate Sound(m: Mailbox) {
    m.next >= 1 && forall u :: u in m.uids ==> 1 <= u < m.next
  }

  datatype Event =
    | Deliver(uid: int)
    | Expunge(gone: int)
    | Reset(epoch: int)

  predicate Possible(m: Mailbox, e: Event) {
    match e
    case Deliver(uid) => uid >= m.next
    case Expunge(_) => true
    case Reset(epoch) => epoch > m.epoch
  }

  function Apply(m: Mailbox, e: Event): Mailbox {
    match e
    case Deliver(uid) => m.(uids := m.uids + {uid}, next := uid + 1)
    case Expunge(gone) => m.(uids := m.uids - {gone})
    case Reset(epoch) => Mailbox(epoch, {}, 1)
  }

  /** What any number of events may make of a mailbox: within an epoch only new UIDs appear. */
  ghost predicate Later(m: Mailbox, m': Mailbox) {
    && m.epoch <= m'.epoch
    && (m.epoch == m'.epoch ==> m.next <= m'.next && forall u :: u in m'.uids && u < m.next ==> u in m.uids)
  }

  predicate AllPossible(m: Mailbox, events: seq<Event>)
    decreases events
  {
    events == [] || (Possible(m, events[0]) && AllPossible(Apply(m, events[0]), events[1..]))
  }

  function ApplyAll(m: Mailbox, events: seq<Event>): Mailbox
    decreases events
  {
    if events == [] then m else ApplyAll(Apply(m, events[0]), events[1..])
  }

  /** Every history of deliveries, expunges and epoch changes keeps the mailbox sound and only moves on. */
  lemma {:induction false} HistoryMovesOn(m: Mailbox, events: seq<Event>)
    requires Sound(m) && AllPossible(m, events)
    ensures Sound(ApplyAll(m, events)) && Later(m, ApplyAll(m, events))
    decreases events
  {
    if events != [] {
      HistoryMovesOn(Apply(m, events[0]), events[1..]);
    }
  }

  // ----- one page -----

  datatype Page = Page(epoch: int, through: int, emails: seq<int>, nextAfter: int, hasMore: bool)

  datatype Answer = Answered(page: Page) | EpochChanged(current: int) | Crashed

  /** The mailbox when a call selects it, when it searches and when it fetches. */
  datatype Visit = Visit(selected: Mailbox, searched: Mailbox, fetched: Mailbox)

  function Min(a: int, b: int): int { if a <= b then a else b }

  function Max(a: int, b: int): int { if a >= b then a else b }

  /** `sorted` of the messages with lo <= uid <= hi. */
  function Range(uids: set<int>, lo: int, hi: int): seq<int>
    decreases hi - lo
  {
    if lo > hi then [] else (if lo in uids then [lo] else []) + Range(uids, lo + 1, hi)
  }

  /** `s[:n]`. */
  function Head(s: seq<int>, n: int): seq<int> {
    if n >= |s| then s else if n >= 0 then s[..n] else s[..Max(|s| + n, 0)]
  }

  /** The UIDs of a page that are still there when it is fetched. */
  function Fetched(uids: seq<int>, m: Mailbox): seq<int> {
    if uids == [] then [] else (if uids[0] in m.uids then [uids[0]] else []) + Fetched(uids[1..], m)
  }

  function ListChanges(v: Visit, afterUid: int, uidvalidity: Option<int>, throughUid: Option<int>, limit: int): Answer {
    if uidvalidity.Some? && v.selected.epoch != uidvalidity.value then EpochChanged(v.selected.epoch)
    else
      var newest := v.selected.next - 1;
      var through := if throughUid.None? then newest else Min(throughUid.value, newest);
      var after := Max(afterUid, 0);
      var uids := Wanted(v, after, through);
      var page := Head(uids, limit);
      var hasMore := |uids| > limit;
      if hasMore && page == [] then Crashed
      else
        Answered(Page(v.selected.epoch, through, Fetched(page, v.fetched),
                      if hasMore then page[|page| - 1] else Max(after, through), hasMore))
  }

  // ----- lists of UIDs -----

  predicate Ascending(s: seq<int>) {
    forall i, j :: 0 <= i < j < |s| ==> s[i] < s[j]
  }

  lemma {:induction false} RangeIsExact(uids: set<int>, lo: int, hi: int)
    ensures Ascending(Range(uids, lo, hi))
    ensures forall u :: u in Range(uids, lo, hi) <==> u in uids && lo <= u <= hi
    decreases hi - lo
  {
    if lo <= hi {
      RangeIsExact(uids, lo + 1, hi);
      var rest := Range(uids, lo + 1, hi);
      forall i | 0 <= i < |rest| ensures lo < rest[i] {
        assert rest[i] in rest;
      }
    }
  }

  lemma {:induction false} FetchedIsExact(uids: seq<int>, m: Mailbox)
    requires Ascending(uids)
    ensures Ascending(Fetched(uids, m))
    ensures forall u :: u in Fetched(uids, m) <==> u in uids && u in m.uids
  {
    if uids != [] {
      FetchedIsExact(uids[1..], m);
      var rest := Fetched(uids[1..], m);
      forall i | 0 <= i < |rest| ensures uids[0] < rest[i] {
        assert rest[i] in rest;
        var k :| 0 <= k < |uids[1..]| && uids[1..][k] == rest[i];
        assert uids[0] < uids[k + 1];
      }
    }
  }

  // ----- what one page keeps -----

  /** The first UIDs of an ascending list are those up to the last of them. */
  lemma HeadIsExact(uids: seq<int>, limit: int)
    requires limit >= 1 && Ascending(uids)
    ensures Ascending(Head(uids, limit))
    ensures |uids| <= limit ==> Head(uids, limit) == uids
    ensures |uids| > limit ==>
      var page := Head(uids, limit);
      && |page| == limit && page[limit - 1] in uids && page[limit - 1] < uids[limit]
      && forall u :: u in page <==> u in uids && u <= page[limit - 1]
  {
    if |uids| > limit {
      var page := Head(uids, limit);
      forall u | u in uids && u <= page[limit - 1] ensures u in page {
        var k :| 0 <= k < |uids| && uids[k] == u;
        assert k < limit;
        assert page[k] == u;
      }
      forall u | u in page ensures u in uids && u <= page[limit - 1] {
        var k :| 0 <= k < |page| && page[k] == u;
        assert uids[k] == u;
      }
    }
  }

  /** The UIDs a call looks at. */
  function Wanted(v: Visit, after: int, through: int): seq<int> {
    if through > after then Range(v.searched.uids, after + 1, through) else []
  }

  lemma WantedIsExact(v: Visit, after: int, through: int)
    ensures Ascending(Wanted(v, after, through))
    ensures forall u :: u in Wanted(v, after, through) <==> u in v.searched.uids && after < u <= through
  {
    RangeIsExact(v.searched.uids, after + 1, through);
  }

  predicate Exact(v: Visit, after: int, p: Page) {
    && after <= p.nextAfter && (p.hasMore ==> after < p.nextAfter < p.through)
    && p.nextAfter <= Max(after, v.selected.next - 1)
    && Ascending(p.emails)
    && (forall i :: 0 <= i < |p.emails| ==> after < p.emails[i] <= p.nextAfter)
    && (forall u :: after < u <= p.nextAfter ==>
          (u in p.emails <==> u in v.searched.uids && u in v.fetched.uids))
  }

  lemma PageFromUids(v: Visit, after: int, through: int, limit: int)
    requires limit >= 1 && through <= v.selected.next - 1
    ensures var uids := Wanted(v, after, through);
            var page, hasMore := Head(uids, limit), |uids| > limit;
            && (hasMore ==> page != [])
            && Exact(v, after, Page(v.selected.epoch, through, Fetched(page, v.fetched),
                 if hasMore then page[|page| - 1] else Max(after, through), hasMore))
  {
    var uids := Wanted(v, after, through);
    WantedIsExact(v, after, through);
    HeadIsExact(uids, limit);
    var page := Head(uids, limit);
    FetchedIsExact(page, v.fetched);
    var emails := Fetched(page, v.fetched);
    if |uids| > limit {
      assert uids[limit] in uids;
    }
    forall i | 0 <= i < |emails| ensures emails[i] in uids && emails[i] in page {
      assert emails[i] in emails;
    }
  }

  /** With a positive limit a page never raises. Its cursor never moves back and moves on while there
      is more; it passes no UID that was still to come; and of the UIDs it passes it reports, in
      ascending order, exactly those there when it searched and when it fetched. */
  lemma PageIsExact(v: Visit, afterUid: int, uidvalidity: Option<int>, throughUid: Option<int>, limit: int)
    requires limit >= 1
    ensures var r := ListChanges(v, afterUid, uidvalidity, throughUid, limit);
            !r.Crashed? && (r.Answered? ==> Exact(v, Max(afterUid, 0), r.page))
  {
    var newest := v.selected.next - 1;
    PageFromUids(v, Max(afterUid, 0), if throughUid.None? then newest else Min(throughUid.value, newest), limit);
  }

  /** The messages a search finds above `lo` and at or below `hi`. */
  function Between(uids: set<int>, lo: int, hi: int): set<int> {
    set u | u in uids && lo < u <= hi
  }

  /** A page's bound: the one given, clamped to the UIDs there are. */
  predicate BoundedBy(v: Visit, bound: Option<int>, p: Page) {
    && p.epoch == v.selected.epoch
    && p.through <= v.selected.next - 1
    && (bound.None? || bound.value > v.selected.next - 1 ==> p.through == v.selected.next - 1)
    && (bound.Some? && bound.value <= v.selected.next - 1 ==> p.through == bound.value)
  }

  /** How far a page goes: to the bound, or to the last UID of a full page when some are left over. */
  predicate Filled(v: Visit, after: int, limit: int, p: Page) {
    && (p.hasMore <==> exists u :: u in v.searched.uids && p.nextAfter < u <= p.through)
    && (p.hasMore ==> |Between(v.searched.uids, after, p.nextAfter)| == limit && p.nextAfter in v.searched.uids)
    && (!p.hasMore ==> p.nextAfter == Max(after, p.through) && |Between(v.searched.uids, after, p.through)| <= limit)
    && |p.emails| <= limit
  }

  function Members(s: seq<int>): set<int> { set u | u in s }

  lemma {:induction false} AscendingSize(s: seq<int>)
    requires Ascending(s)
    ensures |Members(s)| == |s|
    decreases |s|
  {
    if s != [] {
      var n := |s| - 1;
      assert s == s[..n] + [s[n]];
      AscendingSize(s[..n]);
      assert Members(s) == Members(s[..n]) + {s[n]};
    }
  }

  lemma {:induction false} FetchedFewer(uids: seq<int>, m: Mailbox)
    ensures |Fetched(uids, m)| <= |uids|
  {
    if uids != [] {
      FetchedFewer(uids[1..], m);
    }
  }

  lemma FullPage(v: Visit, after: int, through: int, limit: int)
    requires limit >= 1 && |Wanted(v, after, through)| > limit
    ensures var page := Head(Wanted(v, after, through), limit);
      && |page| == limit
      && |Between(v.searched.uids, after, page[limit - 1])| == limit && page[limit - 1] in v.searched.uids
      && exists u :: u in v.searched.uids && page[limit - 1] < u <= through
  {
    var uids := Wanted(v, after, through);
    WantedIsExact(v, after, through);
    HeadIsExact(uids, limit);
    var page := Head(uids, limit);
    assert page[limit - 1] in uids && uids[limit] in uids;
    AscendingSize(page);
    assert Members(page) == Between(v.searched.uids, after, page[limit - 1]);
  }

  lemma LastPage(v: Visit, after: int, through: int, limit: int)
    requires |Wanted(v, after, through)| <= limit
    ensures |Between(v.searched.uids, after, through)| <= limit
  {
    WantedIsExact(v, after, through);
    AscendingSize(Wanted(v, after, through));
    assert Members(Wanted(v, after, through)) == Between(v.searched.uids, after, through);
  }

  lemma PageTo(v: Visit, after: int, through: int, limit: int, p: Page)
    requires limit >= 1
    requires var uids := Wanted(v, after, through);
      var page, hasMore := Head(uids, limit), |uids| > limit;
      && p.through == through && p.emails == Fetched(page, v.fetched) && p.hasMore == hasMore
      && p.nextAfter == if hasMore && page != [] then page[|page| - 1] else Max(after, through)
    ensures Filled(v, after, limit, p)
  {
    var uids := Wanted(v, after, through);
    FetchedFewer(Head(uids, limit), v.fetched);
    if |uids| > limit {
      FullPage(v, after, through, limit);
    } else {
      LastPage(v, after, through, limit);
    }
  }

  /** An epoch that is not the one asked for refuses. Otherwise the page's bound is the one given, clamped to the
      UIDs there are; it has more exactly when a UID it searched is left below the bound, and then it is full. */
  lemma PageIsFilled(v: Visit, afterUid: int, uidvalidity: Option<int>, throughUid: Option<int>, limit: int)
    requires limit >= 1
    ensures var r := ListChanges(v, afterUid, uidvalidity, throughUid, limit);
      && (r == EpochChanged(v.selected.epoch) <==> uidvalidity.Some? && uidvalidity.value != v.selected.epoch)
      && (r.Answered? <==> uidvalidity.None? || uidvalidity.value == v.selected.epoch)
      && (r.Answered? ==> BoundedBy(v, throughUid, r.page) && Filled(v, Max(afterUid, 0), limit, r.page))
  {
    PageIsExact(v, afterUid, uidvalidity, throughUid, limit);
    var r := ListChanges(v, afterUid, uidvalidity, throughUid, limit);
    if r.Answered? {
      PageTo(v, Max(afterUid, 0), r.page.through, limit, r.page);
    }
  }

  // ----- scans -----

  /** What a client carries from page to page: the cursor, the scan's upper bound and the epoch. */
  datatype Cursor = Cursor(after: int, through: Option<int>, epoch: Option<int>)

  /** The next page of the scan, or the first page of the next scan. */
  function Next(p: Page): Cursor {
    Cursor(p.nextAfter, if p.hasMore then Some(p.through) else None, Some(p.epoch))
  }

  function Ask(v: Visit, c: Cursor, limit: int): Answer {
    ListChanges(v, c.after, c.epoch, c.through, limit)
  }

  /** The pages a client reads, one per visit, until one is refused. */
  function Pages(visits: seq<Visit>, c: Cursor, limit: int): (r: seq<Page>)
    ensures |r| <= |visits|
    decreases visits
  {
    if visits == [] then []
    else
      var answer := Ask(visits[0], c, limit);
      if answer.Answered? then [answer.page] + Pages(visits[1..], Next(answer.page), limit) else []
  }

  /** Visits in the order of time: the server moves on between any two looks at the mailbox, and an
      epoch cannot change while the mailbox is selected. */
  ghost predicate Timeline(visits: seq<Visit>) {
    && (forall i :: 0 <= i < |visits| ==>
          && Later(visits[i].selected, visits[i].searched) && Later(visits[i].searched, visits[i].fetched)
          && visits[i].selected.epoch == visits[i].searched.epoch == visits[i].fetched.epoch)
    && (forall i :: 0 <= i < |visits| - 1 ==> Later(visits[i].fetched, visits[i + 1].selected))
  }

  /** The cursor before page `k`. */
  function CursorAt(pages: seq<Page>, c: Cursor, k: nat): Cursor
    requires k <= |pages|
  {
    if k == 0 then c else Next(pages[k - 1])
  }

  lemma FirstPage(visits: seq<Visit>, c: Cursor, limit: int)
    requires Pages(visits, c, limit) != []
    ensures visits != [] && Ask(visits[0], c, limit) == Answered(Pages(visits, c, limit)[0])
    ensures Pages(visits, c, limit)[1..] == Pages(visits[1..], Next(Pages(visits, c, limit)[0]), limit)
  {
  }

  /** A place in a list of pages, seen from the second page on. */
  lemma AfterFirst(pages: seq<Page>, c: Cursor, k: nat)
    requires 0 < k < |pages|
    ensures pages[k] == pages[1..][k - 1]
    ensures CursorAt(pages, c, k) == CursorAt(pages[1..], Next(pages[0]), k - 1)
  {
  }

  lemma {:induction false} PageAt(visits: seq<Visit>, c: Cursor, limit: int, k: nat)
    requires k < |Pages(visits, c, limit)|
    ensures Ask(visits[k], CursorAt(Pages(visits, c, limit), c, k), limit) == Answered(Pages(visits, c, limit)[k])
    decreases k
  {
    var pages := Pages(visits, c, limit);
    FirstPage(visits, c, limit);
    if k > 0 {
      PageAt(visits[1..], Next(pages[0]), limit, k - 1);
      AfterFirst(pages, c, k);
    }
  }

  lemma PageMoves(visits: seq<Visit>, c: Cursor, limit: int, k: nat)
    requires limit >= 1 && k < |Pages(visits, c, limit)| && CursorAt(Pages(visits, c, limit), c, k).after >= 0
    ensures CursorAt(Pages(visits, c, limit), c, k).after <= Pages(visits, c, limit)[k].nextAfter
  {
    var p := CursorAt(Pages(visits, c, limit), c, k);
    PageAt(visits, c, limit, k);
    PageIsExact(visits[k], p.after, p.epoch, p.through, limit);
  }

  /** From a cursor that is not negative the page moves on or stays. */
  predicate Moves(pages: seq<Page>, c: Cursor, k: nat)
    requires k < |pages|
  {
    var after := CursorAt(pages, c, k).after;
    after >= 0 ==> after <= pages[k].nextAfter
  }

  lemma {:induction false} CursorsGrow(pages: seq<Page>, c: Cursor, i: nat, k: nat)
    requires c.after >= 0 && i <= k <= |pages| && forall j :: 0 <= j < |pages| ==> Moves(pages, c, j)
    ensures 0 <= CursorAt(pages, c, i).after <= CursorAt(pages, c, k).after
    decreases k
  {
    if k > 0 {
      CursorsGrow(pages, c, if i < k then i else k - 1, k - 1);
      assert Moves(pages, c, k - 1);
    }
  }

  /** The cursor never moves back over a run. */
  lemma CursorGrows(visits: seq<Visit>, c: Cursor, limit: int, i: nat, k: nat)
    requires limit >= 1 && c.after >= 0 && i <= k <= |Pages(visits, c, limit)|
    ensures 0 <= CursorAt(Pages(visits, c, limit), c, i).after <= CursorAt(Pages(visits, c, limit), c, k).after
  {
    var pages := Pages(visits, c, limit);
    forall j | 0 <= j < |pages|
      ensures Moves(pages, c, j)
    {
      if CursorAt(pages, c, j).after >= 0 {
        PageMoves(visits, c, limit, j);
      }
    }
    CursorsGrow(pages, c, i, k);
  }

  /** A page of a run, with its cursor in place of the call's arguments. */
  lemma PageOfRun(visits: seq<Visit>, c: Cursor, limit: int, k: nat)
    requires limit >= 1 && c.after >= 0 && k < |Pages(visits, c, limit)|
    ensures var pages := Pages(visits, c, limit);
            CursorAt(pages, c, k).after >= 0 && Exact(visits[k], CursorAt(pages, c, k).after, pages[k])
  {
    var at := CursorAt(Pages(visits, c, limit), c, k);
    PageAt(visits, c, limit, k);
    CursorGrows(visits, c, limit, k, k);
    PageIsExact(visits[k], at.after, at.epoch, at.through, limit);
  }

  /** The page that passes a UID. */
  lemma {:induction false} PassingPage(pages: seq<Page>, c: Cursor, u: int, n: nat) returns (k: nat)
    requires n <= |pages| && c.after < u <= CursorAt(pages, c, n).after
    ensures k < n && CursorAt(pages, c, k).after < u <= pages[k].nextAfter
    decreases n
  {
    if CursorAt(pages, c, n - 1).after < u {
      k := n - 1;
    } else {
      k := PassingPage(pages, c, u, n - 1);
    }
  }

  /** Over any number of scans, interleaved with any deliveries and expunges: each UID the cursor
      passes is passed by one page, after its delivery; that page reports it iff it was there when the
      page searched and fetched, and no other page reports it. */
  lemma EachMessageOnce(visits: seq<Visit>, c: Cursor, limit: int, u: int) returns (k: nat)
    requires limit >= 1 && c.after >= 0
    requires var pages := Pages(visits, c, limit); c.after < u <= CursorAt(pages, c, |pages|).after
    ensures var pages := Pages(visits, c, limit);
            && k < |pages| && CursorAt(pages, c, k).after < u <= pages[k].nextAfter
            && u < visits[k].selected.next
            && (u in pages[k].emails <==> u in visits[k].searched.uids && u in visits[k].fetched.uids)
            && forall j :: 0 <= j < |pages| && j != k ==> u !in pages[j].emails
  {
    var pages := Pages(visits, c, limit);
    k := PassingPage(pages, c, u, |pages|);
    PageOfRun(visits, c, limit, k);
    PagesClimb(visits, c, limit);
    forall j | 0 <= j < |pages| && j != k ensures u !in pages[j].emails {
      OnlyItsPage(pages, c, u, k, j);
    }
  }

  /** A page moves the cursor on and reports only what it passes. */
  predicate ClimbsAt(pages: seq<Page>, c: Cursor, k: nat)
    requires k < |pages|
  {
    && CursorAt(pages, c, k).after <= pages[k].nextAfter
    && forall u :: u in pages[k].emails ==> CursorAt(pages, c, k).after < u <= pages[k].nextAfter
  }

  predicate Climbs(pages: seq<Page>, c: Cursor) {
    forall k :: 0 <= k < |pages| ==> ClimbsAt(pages, c, k)
  }

  lemma PagesClimb(visits: seq<Visit>, c: Cursor, limit: int)
    requires limit >= 1 && c.after >= 0
    ensures Climbs(Pages(visits, c, limit), c)
  {
    var pages := Pages(visits, c, limit);
    forall k | 0 <= k < |pages|
      ensures ClimbsAt(pages, c, k)
    {
      PageOfRun(visits, c, limit, k);
    }
  }

  lemma {:induction false} ClimbOver(pages: seq<Page>, c: Cursor, i: nat, k: nat)
    requires Climbs(pages, c) && i <= k <= |pages|
    ensures CursorAt(pages, c, i).after <= CursorAt(pages, c, k).after
    decreases k - i
  {
    if i < k {
      assert ClimbsAt(pages, c, i);
      ClimbOver(pages, c, i + 1, k);
    }
  }

  /** Every UID reported by a later page is larger: UIDs come in ascending order, none twice. */
  lemma ReportsAscend(visits: seq<Visit>, c: Cursor, limit: int, i: nat, k: nat, u: int, w: int)
    requires limit >= 1 && c.after >= 0 && i < k < |Pages(visits, c, limit)|
    requires u in Pages(visits, c, limit)[i].emails && w in Pages(visits, c, limit)[k].emails
    ensures u < w
  {
    PagesClimb(visits, c, limit);
    LaterIsLarger(Pages(visits, c, limit), c, i, k, u, w);
  }

  lemma LaterIsLarger(pages: seq<Page>, c: Cursor, i: nat, k: nat, u: int, w: int)
    requires Climbs(pages, c) && i < k < |pages| && u in pages[i].emails && w in pages[k].emails
    ensures u < w
  {
    assert ClimbsAt(pages, c, i) && ClimbsAt(pages, c, k);
    ClimbOver(pages, c, i + 1, k);
  }

  /** A UID passed by one page is reported by no other. */
  lemma OnlyItsPage(pages: seq<Page>, c: Cursor, u: int, k: nat, j: nat)
    requires Climbs(pages, c) && k < |pages| && j < |pages| && j != k
    requires CursorAt(pages, c, k).after < u <= pages[k].nextAfter
    ensures u !in pages[j].emails
  {
    assert ClimbsAt(pages, c, j);
    if j < k {
      ClimbOver(pages, c, j + 1, k);
    } else {
      ClimbOver(pages, c, k + 1, j);
    }
  }

  /** Nothing at or below the start is ever reported. */
  lemma NothingOld(visits: seq<Visit>, c: Cursor, limit: int, k: nat, u: int)
    requires limit >= 1 && c.after >= 0 && k < |Pages(visits, c, limit)|
    requires u in Pages(visits, c, limit)[k].emails
    ensures u > c.after
  {
    PageOfRun(visits, c, limit, k);
    CursorGrows(visits, c, limit, 0, k);
  }

  // ----- a scan stays in its epoch and under its bound, so it ends -----

  lemma {:induction false} SameEpoch(visits: seq<Visit>, c: Cursor, limit: int, k: nat)
    requires k < |Pages(visits, c, limit)|
    ensures Pages(visits, c, limit)[k].epoch == Pages(visits, c, limit)[0].epoch == visits[k].selected.epoch
    decreases k
  {
    PageAt(visits, c, limit, k);
    if k > 0 {
      SameEpoch(visits, c, limit, k - 1);
    } else {
      PageAt(visits, c, limit, 0);
    }
  }

  lemma NextOnlyGrows(visits: seq<Visit>, c: Cursor, limit: int, k: nat)
    requires Timeline(visits) && k + 1 < |Pages(visits, c, limit)|
    ensures visits[k].selected.next <= visits[k + 1].selected.next
  {
    SameEpoch(visits, c, limit, k);
    SameEpoch(visits, c, limit, k + 1);
    assert Later(visits[k].fetched, visits[k + 1].selected);
    assert Later(visits[k].selected, visits[k].searched) && Later(visits[k].searched, visits[k].fetched);
  }

  /** While there is more, the bound stays what the first page set. */
  lemma {:induction false} BoundStays(visits: seq<Visit>, c: Cursor, limit: int, k: nat)
    requires limit >= 1 && Timeline(visits) && k < |Pages(visits, c, limit)|
    requires forall j :: 0 <= j < k ==> Pages(visits, c, limit)[j].hasMore
    ensures Pages(visits, c, limit)[k].through == Pages(visits, c, limit)[0].through <= visits[k].selected.next - 1
    decreases k
  {
    PageAt(visits, c, limit, k);
    if k > 0 {
      BoundStays(visits, c, limit, k - 1);
      NextOnlyGrows(visits, c, limit, k - 1);
      assert CursorAt(Pages(visits, c, limit), c, k).through == Some(Pages(visits, c, limit)[k - 1].through);
    }
  }

  /** A scan ends: while there is more the cursor climbs by at least one per page and stays below the
      bound, so no more pages can follow than there are UIDs up to the bound. */
  lemma {:induction false} ScanEnds(visits: seq<Visit>, c: Cursor, limit: int, n: nat)
    requires limit >= 1 && c.after >= 0 && Timeline(visits) && 0 < n <= |Pages(visits, c, limit)|
    requires forall j :: 0 <= j < n ==> Pages(visits, c, limit)[j].hasMore
    ensures c.after + n <= Pages(visits, c, limit)[n - 1].nextAfter < Pages(visits, c, limit)[0].through
    decreases n
  {
    PageOfRun(visits, c, limit, n - 1);
    BoundStays(visits, c, limit, n - 1);
    if n > 1 {
      ScanEnds(visits, c, limit, n - 1);
    }
  }

  // ----- what is still there was reported -----

  /** All looks at the mailbox from the k-th visit on are in the epoch of a later one. */
  predicate EpochFrom(visits: seq<Visit>, k: nat, epoch: int) {
    forall i :: k <= i < |visits| ==> visits[i].selected.epoch == epoch
  }

  /** A message that came before a visit and is there after the last one was there all along. */
  lemma {:induction false} ThereAllAlong(visits: seq<Visit>, k: nat, u: int, now: Mailbox)
    requires Timeline(visits) && k < |visits| && EpochFrom(visits, k, now.epoch)
    requires Later(visits[|visits| - 1].fetched, now) && u in now.uids && u < visits[k].selected.next
    ensures u in visits[k].selected.uids && u in visits[k].searched.uids && u in visits[k].fetched.uids
    decreases |visits| - k
  {
    var v := visits[k];
    assert Later(v.selected, v.searched) && Later(v.searched, v.fetched);
    if k + 1 < |visits| {
      assert Later(v.fetched, visits[k + 1].selected);
      ThereAllAlong(visits, k + 1, u, now);
    }
  }

  lemma TimelineTo(visits: seq<Visit>, n: nat)
    requires Timeline(visits) && n <= |visits|
    ensures Timeline(visits[..n])
  {
  }

  lemma OneEpoch(visits: seq<Visit>, c: Cursor, limit: int, i: nat, j: nat)
    requires i < |Pages(visits, c, limit)| && j < |Pages(visits, c, limit)|
    ensures visits[i].selected.epoch == visits[j].selected.epoch
  {
    SameEpoch(visits, c, limit, i);
    SameEpoch(visits, c, limit, j);
  }

  /** The visits that gave a page are looks within one epoch. */
  lemma MadeVisits(visits: seq<Visit>, c: Cursor, limit: int, n: nat, epoch: int)
    requires 0 < n == |Pages(visits, c, limit)| && visits[n - 1].selected.epoch == epoch
    ensures EpochFrom(visits[..n], 0, epoch)
  {
    forall i | 0 <= i < n
      ensures visits[i].selected.epoch == epoch
    {
      OneEpoch(visits, c, limit, i, n - 1);
    }
  }

  lemma WasThere(visits: seq<Visit>, c: Cursor, limit: int, k: nat, u: int, now: Mailbox)
    requires Timeline(visits) && k < |Pages(visits, c, limit)| && u in now.uids && u < visits[k].selected.next
    requires var last := visits[|Pages(visits, c, limit)| - 1].fetched; Later(last, now) && last.epoch == now.epoch
    ensures u in visits[k].searched.uids && u in visits[k].fetched.uids
  {
    var n := |Pages(visits, c, limit)|;
    var made := visits[..n];
    TimelineTo(visits, n);
    MadeVisits(visits, c, limit, n, now.epoch);
    ThereAllAlong(made, k, u, now);
  }

  /** Every message still in the mailbox later in the epoch, above the start and at or below the cursor, was
      reported by exactly one page. */
  lemma StillThereWasReported(visits: seq<Visit>, c: Cursor, limit: int, u: int, now: Mailbox) returns (k: nat)
    requires limit >= 1 && c.after >= 0 && Timeline(visits)
    requires var n := |Pages(visits, c, limit)|;
      n > 0 && Later(visits[n - 1].fetched, now) && visits[n - 1].fetched.epoch == now.epoch
    requires var pages := Pages(visits, c, limit);
      u in now.uids && c.after < u <= CursorAt(pages, c, |pages|).after
    ensures var pages := Pages(visits, c, limit);
      && k < |pages| && u in pages[k].emails && forall j :: 0 <= j < |pages| && j != k ==> u !in pages[j].emails
  {
    k := EachMessageOnce(visits, c, limit, u);
    WasThere(visits, c, limit, k, u, now);
  }

  /** A page of a run whose pages so far all had more has gone through its bound when it has no more itself. */
  lemma LastPageReaches(visits: seq<Visit>, c: Cursor, limit: int, n: nat)
    requires limit >= 1 && c.after >= 0 && Timeline(visits) && n + 1 == |Pages(visits, c, limit)|
    requires forall j :: 0 <= j < n ==> Pages(visits, c, limit)[j].hasMore
    requires !Pages(visits, c, limit)[n].hasMore
    ensures CursorAt(Pages(visits, c, limit), c, n + 1).after >= Pages(visits, c, limit)[0].through
  {
    var at := CursorAt(Pages(visits, c, limit), c, n);
    PageAt(visits, c, limit, n);
    PageIsFilled(visits[n], at.after, at.epoch, at.through, limit);
    BoundStays(visits, c, limit, n);
  }

  /** A scan that has come to a page with no more is complete: of all that came while it ran, every message above the
      start and at or below the scan's bound that is still in the mailbox was reported by exactly one page. */
  lemma ScanIsComplete(visits: seq<Visit>, c: Cursor, limit: int, n: nat, u: int, now: Mailbox) returns (k: nat)
    requires limit >= 1 && c.after >= 0 && Timeline(visits) && n + 1 == |Pages(visits, c, limit)|
    requires forall j :: 0 <= j < n ==> Pages(visits, c, limit)[j].hasMore
    requires !Pages(visits, c, limit)[n].hasMore
    requires Later(visits[n].fetched, now) && visits[n].fetched.epoch == now.epoch
    requires u in now.uids && c.after < u <= Pages(visits, c, limit)[0].through
    ensures var pages := Pages(visits, c, limit);
      && k < |pages| && u in pages[k].emails && forall j :: 0 <= j < |pages| && j != k ==> u !in pages[j].emails
  {
    LastPageReaches(visits, c, limit, n);
    k := StillThereWasReported(visits, c, limit, u, now);
  }

  /** Two messages read one by one: the first page says that there is more. */
  lemma FirstOfTwo(v: Visit)
    requires v.selected == v.searched == v.fetched == Mailbox(1, {1, 2}, 3)
    ensures ListChanges(v, 0, None, None, 1) == Answered(Page(1, 2, [1], 1, true))
  {
    PageIsFilled(v, 0, None, None, 1);
    PageIsExact(v, 0, None, None, 1);
    var p := ListChanges(v, 0, None, None, 1).page;
    assert Between({1, 2}, 0, 2) == {1, 2};
    assert p.nextAfter == 1 && 1 in p.emails;
  }
}
