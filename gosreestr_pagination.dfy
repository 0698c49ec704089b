/**
 * The registry crawler's pager: how many pages the registry reports, and the
 * loop that harvests a page, clicks the NEXT or PREVIOUS button and decides
 * whether to stop. The browser is replaced by two inputs: the true number of
 * result pages (which decides whether the direction button exists) and a
 * sequence of per-iteration outcomes (a clean iteration, or an exception at
 * some point of it).
 */
module GosReestrPagination {
  import opened Wrappers
  import opened JavaText

  // ---------------------------------------------------------------------------
  // The last page number
  // ---------------------------------------------------------------------------

  /** What the wait for the numbered page buttons produced. */
  datatype PagerButtons =
    | NumberButtons(lastText: string)  // the text of the last numbered button
    | ButtonsTimedOut                  // none appeared in time

  /** The page count assumed when the numbered buttons cannot be read. */
  const FallbackLastPage: int := 1000

  /**
   * getLastPage: the last numbered button's text as an int; 1000 when the
   * buttons never appear; a text that is not a number throws (None).
   */
  function GetLastPage(buttons: PagerButtons): (r: Option<int>)
    ensures buttons == ButtonsTimedOut ==> r == Some(FallbackLastPage)
    ensures buttons.NumberButtons? ==> r == ParseInt(buttons.lastText)
    ensures r.Some? ==> MinInt <= r.value <= MaxInt
  {
    match buttons
    case ButtonsTimedOut => Some(FallbackLastPage)
    case NumberButtons(text) =>
      var n := ParseInt(text);
      if n.Some? then ParseIntBounds(text); n else n
  }

  lemma ParseIntBounds(text: string)
    requires ParseInt(text).Some?
    ensures MinInt <= ParseInt(text).value <= MaxInt
  {
  }

  /** A button showing a page number in decimal is read back as that number. */
  lemma LastPageReadsButton(n: int)
    requires MinInt <= n <= MaxInt
    ensures GetLastPage(NumberButtons(IntToString(n))) == Some(n)
  {
    ParseIntOfIntToString(n);
  }

  // ---------------------------------------------------------------------------
  // The pagination loop
  // ---------------------------------------------------------------------------

  /** NEXT ("dxWeb_pNext_Material") or PREVIOUS ("dxWeb_pPrev_Material"). */
  datatype Direction = Next | Previous {
    function ClassName(): string {
      match this
      case Next => "dxWeb_pNext_Material"
      case Previous => "dxWeb_pPrev_Material"
    }
  }

  /** The stop test as written (`>=` going forward) or with the forward bound made strict. */
  datatype StopRule = AsWritten | Corrected

  /** How an iteration that threw ended: a timeout ends the sweep, anything else repeats the loop. */
  datatype Fault = TimedOut | Retried

  /**
   * One iteration of the loop: clean, or interrupted by an exception after
   * the page was saved or not, and after the button was clicked or not.
   */
  datatype Step = Clean | Faulted(saved: bool, clicked: bool, fault: Fault)

  /** Why the sweep ended; OutOfSteps means the outcome sequence ran out while the loop would go on. */
  datatype End = NoButton | Stopped | EndedByTimeout | OutOfSteps

  /** The page the browser shows and the loop's own page counter. */
  datatype Pager = Pager(browserPage: int, currentPage: int)

  /** The pages whose cards were saved, in order, and why the loop ended. */
  datatype Sweep = Sweep(harvested: seq<int>, end: End)

  /** Whether the direction button is on the page: there is a page beyond it in that direction. */
  predicate HasButton(dir: Direction, pageCount: int, page: int) {
    match dir
    case Next => page < pageCount
    case Previous => page > 1
  }

  function Move(dir: Direction, page: int): int {
    match dir
    case Next => page + 1
    case Previous => page - 1
  }

  /** The both-mode stop test, made after the counter has moved. */
  predicate ShouldStop(dir: Direction, rule: StopRule, both: bool, currentPage: int, stoppingPage: int) {
    both &&
    match dir
    case Previous => currentPage <= stoppingPage
    case Next => if rule == AsWritten then currentPage >= stoppingPage else currentPage > stoppingPage
  }

  /** Java's int division by two, truncating toward zero. */
  function Half(n: int): (h: int)
    ensures n >= 0 ==> h == n / 2
    ensures n < 0 ==> h == -((-n) / 2)
  {
    if n >= 0 then n / 2 else -((-n) / 2)
  }

  /** The pager before the loop: page 1 going forward, the last page (and the reported count) going back. */
  function Start(dir: Direction, pageCount: int, reported: int): Pager {
    match dir
    case Next => Pager(1, 1)
    case Previous => Pager(pageCount, reported)
  }

  function Prepend(pages: seq<int>, rest: Sweep): Sweep {
    Sweep(pages + rest.harvested, rest.end)
  }

  /** The sweep the loop performs from `pager` over the remaining iteration outcomes. */
  function Run(dir: Direction, rule: StopRule, both: bool, pageCount: int, stoppingPage: int,
               pager: Pager, steps: seq<Step>): (r: Sweep)
    ensures r.end == OutOfSteps ==> |r.harvested| <= |steps|
    decreases |steps|
  {
    if steps == [] then Sweep([], OutOfSteps)
    else
      var page := pager.browserPage;
      match steps[0]
      case Clean =>
        if HasButton(dir, pageCount, page) then
          var next := Pager(Move(dir, page), Move(dir, pager.currentPage));
          if ShouldStop(dir, rule, both, next.currentPage, stoppingPage) then Sweep([page], Stopped)
          else Prepend([page], Run(dir, rule, both, pageCount, stoppingPage, next, steps[1..]))
        else Sweep([page], NoButton)
      case Faulted(saved, clicked, fault) =>
        var pages := if saved then [page] else [];
        var moved := saved && clicked && HasButton(dir, pageCount, page);
        var after := if moved then pager.(browserPage := Move(dir, page)) else pager;
        if fault == TimedOut then Sweep(pages, EndedByTimeout)
        else Prepend(pages, Run(dir, rule, both, pageCount, stoppingPage, after, steps[1..]))
  }

  /**
   * parsePatentsWithPagination: harvest the shown page, click the direction
   * button and move the counter, stop in both-mode once the counter reaches
   * the stopping page, and end when the button is missing or a wait times out.
   * `reported` is getLastPage's result; the harvested pages are returned in order.
   */
  method Paginate(dir: Direction, rule: StopRule, both: bool, pageCount: int, reported: int, steps: seq<Step>)
    returns (harvested: seq<int>, end: End)
    ensures Sweep(harvested, end) == Run(dir, rule, both, pageCount, Half(reported), Start(dir, pageCount, reported), steps)
  {
    var currentPage := 1;
    var stoppingPage := 0;
    var browserPage := 1;
    if dir == Previous {
      browserPage := pageCount;
      currentPage := reported;
      stoppingPage := Half(currentPage);
    }
    if dir == Next {
      stoppingPage := Half(reported);
    }
    harvested := [];
    var i := 0;
    while i < |steps|
      invariant 0 <= i <= |steps|
      invariant stoppingPage == Half(reported)
      invariant Run(dir, rule, both, pageCount, stoppingPage, Start(dir, pageCount, reported), steps) ==
                Prepend(harvested, Run(dir, rule, both, pageCount, stoppingPage, Pager(browserPage, currentPage), steps[i..]))
      decreases |steps| - i
    {
      var page := browserPage;
      ghost var pager := Pager(browserPage, currentPage);
      ghost var before := harvested;
      RunUnfold(dir, rule, both, pageCount, stoppingPage, pager, steps, i);
      match steps[i] {
        case Clean =>
          harvested := harvested + [page];
          if HasButton(dir, pageCount, page) {
            browserPage := Move(dir, browserPage);
            currentPage := Move(dir, currentPage);
            if ShouldStop(dir, rule, both, currentPage, stoppingPage) {
              return harvested, Stopped;
            }
            PrependTwice(before, [page], Run(dir, rule, both, pageCount, stoppingPage,
                                             Pager(browserPage, currentPage), steps[i + 1..]));
          } else {
            return harvested, NoButton;
          }
        case Faulted(saved, clicked, fault) =>
          // the exception arrives after the save (or not) and after the click (or not)
          var pages := if saved then [page] else [];
          harvested := harvested + pages;
          var moved := saved && clicked && HasButton(dir, pageCount, page);
          if moved {
            browserPage := Move(dir, browserPage);
          }
          if fault == TimedOut {
            return harvested, EndedByTimeout;
          }
          assert Pager(browserPage, currentPage) == if moved then pager.(browserPage := Move(dir, page)) else pager;
          PrependTwice(before, pages, Run(dir, rule, both, pageCount, stoppingPage,
                                          Pager(browserPage, currentPage), steps[i + 1..]));
      }
      i := i + 1;
    }
    assert steps[i..] == [];
    end := OutOfSteps;
  }

  /** Run from position i of the outcomes, unfolded once. */
  lemma RunUnfold(dir: Direction, rule: StopRule, both: bool, pageCount: int, stoppingPage: int,
                  pager: Pager, steps: seq<Step>, i: nat)
    requires i < |steps|
    ensures Run(dir, rule, both, pageCount, stoppingPage, pager, steps[i..]) ==
            match steps[i]
            case Clean =>
              if HasButton(dir, pageCount, pager.browserPage) then
                var next := Pager(Move(dir, pager.browserPage), Move(dir, pager.currentPage));
                if ShouldStop(dir, rule, both, next.currentPage, stoppingPage) then Sweep([pager.browserPage], Stopped)
                else Prepend([pager.browserPage], Run(dir, rule, both, pageCount, stoppingPage, next, steps[i + 1..]))
              else Sweep([pager.browserPage], NoButton)
            case Faulted(saved, clicked, fault) =>
              var pages := if saved then [pager.browserPage] else [];
              var moved := saved && clicked && HasButton(dir, pageCount, pager.browserPage);
              var after := if moved then pager.(browserPage := Move(dir, pager.browserPage)) else pager;
              if fault == TimedOut then Sweep(pages, EndedByTimeout)
              else Prepend(pages, Run(dir, rule, both, pageCount, stoppingPage, after, steps[i + 1..]))
  {
    assert steps[i..][0] == steps[i];
    assert steps[i..][1..] == steps[i + 1..];
  }

  lemma PrependTwice(first: seq<int>, second: seq<int>, rest: Sweep)
    ensures Prepend(first, Prepend(second, rest)) == Prepend(first + second, rest)
  {
    assert first + (second + rest.harvested) == (first + second) + rest.harvested;
  }

  // ---------------------------------------------------------------------------
  // Runs without exceptions
  // ---------------------------------------------------------------------------

  function Cleans(n: nat): (s: seq<Step>)
    ensures |s| == n && forall i :: 0 <= i < n ==> s[i] == Clean
  {
    seq(n, i => Clean)
  }

  /** The pages lo, lo + 1, ..., hi. */
  function Ascending(lo: int, hi: int): (s: seq<int>)
    ensures |s| == if hi < lo then 0 else hi - lo + 1
    ensures forall k :: 0 <= k < |s| ==> s[k] == lo + k
  {
    if hi < lo then [] else seq(hi - lo + 1, k => lo + k)
  }

  /** The pages hi, hi - 1, ..., lo. */
  function Descending(hi: int, lo: int): (s: seq<int>)
    ensures |s| == if hi < lo then 0 else hi - lo + 1
    ensures forall k :: 0 <= k < |s| ==> s[k] == hi - k
  {
    if hi < lo then [] else seq(hi - lo + 1, k => hi - k)
  }

  function Max(a: int, b: int): int { if a >= b then a else b }
  function Min(a: int, b: int): int { if a <= b then a else b }

  /** The last page a clean forward sweep from page p harvests. */
  function ForwardLast(rule: StopRule, both: bool, pageCount: int, stoppingPage: int, p: int): int {
    if !both then pageCount
    else Max(p, Min(pageCount, if rule == AsWritten then stoppingPage - 1 else stoppingPage))
  }

  /** The last page a clean backward sweep from page p harvests. */
  function BackwardLast(both: bool, stoppingPage: int, p: int): int {
    if !both then 1 else Min(p, Max(1, stoppingPage + 1))
  }

  /**
   * A clean forward sweep whose counter agrees with the browser harvests the
   * pages from p up to ForwardLast in order.
   */
  lemma {:induction false} ForwardRun(rule: StopRule, both: bool, pageCount: int, stoppingPage: int, p: int, k: nat)
    requires 1 <= p <= pageCount && k > pageCount - p
    ensures Run(Next, rule, both, pageCount, stoppingPage, Pager(p, p), Cleans(k)).harvested ==
            Ascending(p, ForwardLast(rule, both, pageCount, stoppingPage, p))
    decreases pageCount - p
  {
    var steps := Cleans(k);
    var last := ForwardLast(rule, both, pageCount, stoppingPage, p);
    if HasButton(Next, pageCount, p) && !ShouldStop(Next, rule, both, p + 1, stoppingPage) {
      assert steps[1..] == Cleans(k - 1);
      ForwardRun(rule, both, pageCount, stoppingPage, p + 1, k - 1);
      assert ForwardLast(rule, both, pageCount, stoppingPage, p + 1) == last;
      assert Ascending(p, last) == [p] + Ascending(p + 1, last);
    } else {
      assert last == p;
      assert Ascending(p, last) == [p];
    }
  }

  /**
   * A clean backward sweep whose counter agrees with the browser harvests the
   * pages from p down to BackwardLast in order.
   */
  lemma {:induction false} BackwardRun(rule: StopRule, both: bool, pageCount: int, stoppingPage: int, p: int, k: nat)
    requires 1 <= p && k >= p
    ensures Run(Previous, rule, both, pageCount, stoppingPage, Pager(p, p), Cleans(k)).harvested ==
            Descending(p, BackwardLast(both, stoppingPage, p))
    decreases p
  {
    var steps := Cleans(k);
    var last := BackwardLast(both, stoppingPage, p);
    if HasButton(Previous, pageCount, p) && !ShouldStop(Previous, rule, both, p - 1, stoppingPage) {
      assert steps[1..] == Cleans(k - 1);
      BackwardRun(rule, both, pageCount, stoppingPage, p - 1, k - 1);
      assert BackwardLast(both, stoppingPage, p - 1) == last;
      assert Descending(p, last) == [p] + Descending(p - 1, last);
    } else {
      assert last == p;
      assert Descending(p, last) == [p];
    }
  }

  /** The forward half of a both-mode crawl over `lastPage` pages, with the page count read correctly. */
  function ForwardHalf(rule: StopRule, lastPage: int): seq<int>
    requires lastPage >= 1
  {
    Run(Next, rule, true, lastPage, Half(lastPage), Start(Next, lastPage, lastPage), Cleans(lastPage)).harvested
  }

  /** The backward half of the same crawl. */
  function BackwardHalf(rule: StopRule, lastPage: int): seq<int>
    requires lastPage >= 1
  {
    Run(Previous, rule, true, lastPage, Half(lastPage), Start(Previous, lastPage, lastPage), Cleans(lastPage)).harvested
  }

  /**
   * As written, the two halves of a clean both-mode crawl miss the middle
   * page lastPage/2 whenever there are at least four pages: the forward sweep
   * stops on landing there and the backward sweep stops on landing there,
   * and neither harvests the page it lands on.
   */
  lemma MiddlePageMissed(lastPage: int)
    requires lastPage >= 4
    ensures lastPage / 2 !in ForwardHalf(AsWritten, lastPage)
    ensures lastPage / 2 !in BackwardHalf(AsWritten, lastPage)
  {
    var s := lastPage / 2;
    ForwardRun(AsWritten, true, lastPage, s, 1, lastPage);
    BackwardRun(AsWritten, true, lastPage, s, lastPage, lastPage);
    var fwd := ForwardHalf(AsWritten, lastPage);
    var bwd := BackwardHalf(AsWritten, lastPage);
    assert fwd == Ascending(1, s - 1);
    assert bwd == Descending(lastPage, s + 1);
  }

  /** With ten pages, page 5 is never harvested. */
  lemma TenPagesMissPageFive()
    ensures 5 !in ForwardHalf(AsWritten, 10) && 5 !in BackwardHalf(AsWritten, 10)
  {
    MiddlePageMissed(10);
  }

  /**
   * With the forward stop made strict, the forward half harvests 1..lastPage/2
   * and the backward half lastPage/2+1..lastPage, so every page is harvested
   * exactly once (page 1 twice when there is a single page).
   */
  lemma CorrectedHalvesCoverEveryPage(lastPage: int)
    requires lastPage >= 1
    ensures forall q :: 1 <= q <= lastPage ==> q in ForwardHalf(Corrected, lastPage) || q in BackwardHalf(Corrected, lastPage)
    ensures lastPage >= 2 ==> forall q :: q in ForwardHalf(Corrected, lastPage) ==> q !in BackwardHalf(Corrected, lastPage)
  {
    var s := lastPage / 2;
    ForwardRun(Corrected, true, lastPage, s, 1, lastPage);
    BackwardRun(Corrected, true, lastPage, s, lastPage, lastPage);
    var fwd := ForwardHalf(Corrected, lastPage);
    var bwd := BackwardHalf(Corrected, lastPage);
    assert fwd == Ascending(1, Max(1, s));
    assert bwd == Descending(lastPage, Min(lastPage, Max(1, s + 1)));
    forall q | 1 <= q <= lastPage ensures q in fwd || q in bwd {
      if q <= Max(1, s) {
        assert fwd[q - 1] == q;
      } else {
        assert bwd[lastPage - q] == q;
      }
    }
  }

  /** Without both-mode a clean forward sweep harvests every page and ends at the missing button. */
  lemma SingleForwardSweepHarvestsAll(rule: StopRule, pageCount: int, reported: int)
    requires pageCount >= 1
    ensures Run(Next, rule, false, pageCount, Half(reported), Start(Next, pageCount, reported), Cleans(pageCount)) ==
            Sweep(Ascending(1, pageCount), NoButton)
  {
    ForwardRun(rule, false, pageCount, Half(reported), 1, pageCount);
    ForwardEndsAtButton(rule, pageCount, Half(reported), 1, pageCount);
  }

  lemma {:induction false} ForwardEndsAtButton(rule: StopRule, pageCount: int, stoppingPage: int, p: int, k: nat)
    requires 1 <= p <= pageCount && k > pageCount - p
    ensures Run(Next, rule, false, pageCount, stoppingPage, Pager(p, p), Cleans(k)).end == NoButton
    decreases pageCount - p
  {
    var steps := Cleans(k);
    if p < pageCount {
      assert steps[1..] == Cleans(k - 1);
      ForwardEndsAtButton(rule, pageCount, stoppingPage, p + 1, k - 1);
    }
  }

  /**
   * When the page count could not be read (1000 assumed) and the registry has
   * fewer than 500 pages, a both-mode forward sweep never reaches its stopping
   * page and harvests every page.
   */
  lemma FallbackForwardHarvestsAll(rule: StopRule, pageCount: int)
    requires 1 <= pageCount < 500
    ensures Run(Next, rule, true, pageCount, Half(FallbackLastPage), Start(Next, pageCount, FallbackLastPage),
                Cleans(pageCount)).harvested == Ascending(1, pageCount)
  {
    ForwardRun(rule, true, pageCount, Half(FallbackLastPage), 1, pageCount);
  }

  /** An iteration that throws before saving, without ending the sweep, leaves everything as it was. */
  lemma UnsavedRetryRepeatsPage(dir: Direction, rule: StopRule, both: bool, pageCount: int, stoppingPage: int,
                                pager: Pager, clicked: bool, rest: seq<Step>)
    ensures Run(dir, rule, both, pageCount, stoppingPage, pager, [Faulted(false, clicked, Retried)] + rest) ==
            Run(dir, rule, both, pageCount, stoppingPage, pager, rest)
  {
    assert ([Faulted(false, clicked, Retried)] + rest)[1..] == rest;
  }

  /**
   * An iteration that throws after the click but before the counter moves
   * leaves the counter one page behind the browser: the next clean iteration
   * harvests the page past the one the counter names.
   */
  lemma LateFaultDesynchronisesCounter(rule: StopRule, both: bool, pageCount: int, stoppingPage: int, p: int, rest: seq<Step>)
    requires 1 <= p < pageCount
    ensures Run(Next, rule, both, pageCount, stoppingPage, Pager(p, p), [Faulted(true, true, Retried)] + rest) ==
            Prepend([p], Run(Next, rule, both, pageCount, stoppingPage, Pager(p + 1, p), rest))
  {
    assert ([Faulted(true, true, Retried)] + rest)[1..] == rest;
  }
}
