/**
 * Paging through approvals: a refresh task and a UI task that share a lossy
 * signal channel of capacity one and a queue of events.
 */
module Paging {
  import opened Wrappers
  import opened Seqs

  const PAGE_SIZE: nat := 50
  const U32_MAX: nat := 0xFFFF_FFFF
  /** The most approvals that 32-bit offsets can page through: the last exact page ends here. */
  const PAGEABLE: nat := 4_294_967_300

  // ---- one page ----

  /** A page number is cut to 32 bits, then multiplied without overflowing. */
  function Offset(page: nat): nat {
    var wanted := PAGE_SIZE * (page % (U32_MAX + 1));
    if wanted <= U32_MAX then wanted else U32_MAX
  }

  datatype Page<T> = Page(items: seq<T>, hasMore: bool)

  function PageOf<T>(list: seq<T>, page: nat): Page<T> {
    var offset := Offset(page);
    Page(Window(list, PAGE_SIZE, offset), offset + PAGE_SIZE < |list|)
  }

  /** One row more than a page is requested; its presence tells that there is more, and it is dropped. */
  method ListApprovalsPage<T>(list: seq<T>, page: nat) returns (items: seq<T>, hasMore: bool)
    ensures Page(items, hasMore) == PageOf(list, page)
  {
    items := Window(list, PAGE_SIZE + 1, Offset(page));
    hasMore := |items| > PAGE_SIZE;
    if hasMore {
      items := items[..PAGE_SIZE];
    }
  }

  /** The first n pages one after the other. */
  function Pages<T>(list: seq<T>, n: nat): seq<T> {
    if n == 0 then [] else Pages(list, n - 1) + PageOf(list, n - 1).items
  }

  lemma {:induction false} PagesAreFront<T>(list: seq<T>, n: nat)
    requires PAGE_SIZE * n <= |list| && PAGE_SIZE * n <= PAGEABLE
    ensures Pages(list, n) == list[..PAGE_SIZE * n]
  {
    if n > 0 {
      PagesAreFront(list, n - 1);
      assert Offset(n - 1) == PAGE_SIZE * (n - 1);
      assert list[..PAGE_SIZE * n] == list[..PAGE_SIZE * (n - 1)] + list[PAGE_SIZE * (n - 1)..PAGE_SIZE * n];
    }
  }

  /** Page last is the first that reports nothing more. */
  ghost predicate LastPage<T>(list: seq<T>, last: nat) {
    !PageOf(list, last).hasMore && forall p | 0 <= p < last :: PageOf(list, p).hasMore
  }

  /** Page numbers up to this one have exact offsets. */
  const LAST_EXACT: nat := 85_899_345

  /** The number of the page that holds the end of a pageable list. */
  function EndPage(n: nat): nat {
    if n == 0 then 0 else (n - 1) / PAGE_SIZE
  }

  /** The pages of a pageable list end, with the page that holds its end. */
  lemma PagesEnd<T>(list: seq<T>)
    requires |list| <= PAGEABLE
    ensures LastPage(list, EndPage(|list|))
  {
    var last := EndPage(|list|);
    forall p | 0 <= p <= last
      ensures Offset(p) == PAGE_SIZE * p
    {
    }
  }

  /** A page that reports more ends before the list does, so the next one starts inside it. */
  lemma {:induction false} EarlierPagesAreExact<T>(list: seq<T>, n: nat)
    requires |list| <= PAGEABLE && forall p | 0 <= p < n :: PageOf(list, p).hasMore
    ensures n > 0 ==> PAGE_SIZE * n < |list|
  {
    if n > 0 {
      EarlierPagesAreExact(list, n - 1);
      assert PageOf(list, n - 1).hasMore;
      assert Offset(n - 1) == PAGE_SIZE * (n - 1);
    }
  }

  lemma ExactUpTo<T>(list: seq<T>)
    requires |list| <= PAGEABLE
    ensures Pages(list, EndPage(|list|) + 1) == list
  {
    var last := EndPage(|list|);
    EndPageBounds(|list|);
    PagesAreFront(list, last);
    LastPart(list, PAGE_SIZE * last);
    assert Pages(list, last + 1) == Pages(list, last) + PageOf(list, last).items;
  }

  lemma EndPageBounds(n: nat)
    requires n <= PAGEABLE
    ensures PAGE_SIZE * EndPage(n) <= n <= PAGE_SIZE * EndPage(n) + PAGE_SIZE
    ensures Offset(EndPage(n)) == PAGE_SIZE * EndPage(n)
  {
  }

  lemma LastPart<T>(list: seq<T>, offset: nat)
    requires offset <= |list| <= offset + PAGE_SIZE
    ensures list[..offset] + Window(list, PAGE_SIZE, offset) == list
  {
  }

  /** A longer list either has more behind every page or ends with the first page whose offset is cut. */
  lemma EndsPastTheOffsets<T>(list: seq<T>, last: nat)
    requires |list| > PAGEABLE && LastPage(list, last)
    ensures last == LAST_EXACT + 1 && |list| <= U32_MAX + PAGE_SIZE
  {
    var first := LAST_EXACT + 1;
    assert Offset(first) == U32_MAX;
    assert Offset(last) <= U32_MAX;
    assert last <= LAST_EXACT ==> Offset(last) == PAGE_SIZE * last;
    assert first < last ==> PageOf(list, first).hasMore;
  }

  /** That page repeats five entries. */
  lemma RepeatsBeyond<T>(list: seq<T>)
    requires PAGEABLE < |list| <= U32_MAX + PAGE_SIZE
    ensures LastPage(list, LAST_EXACT + 1) && |Pages(list, LAST_EXACT + 2)| == |list| + 5
  {
    var first := LAST_EXACT + 1;
    assert Offset(first) == U32_MAX;
    forall p | 0 <= p < first
      ensures Offset(p) == PAGE_SIZE * p
    {
    }
    PagesAreFront(list, first);
    assert Pages(list, first + 1) == Pages(list, first) + PageOf(list, first).items;
  }

  /** Paging comes to an end exactly up to this length. */
  lemma PagesEndExactly<T>(list: seq<T>)
    ensures (exists last: nat :: LastPage(list, last)) <==> |list| <= U32_MAX + PAGE_SIZE
  {
    if |list| <= PAGEABLE {
      PagesEnd(list);
    } else if |list| <= U32_MAX + PAGE_SIZE {
      RepeatsBeyond(list);
    } else if exists last: nat :: LastPage(list, last) {
      var last: nat :| LastPage(list, last);
      EndsPastTheOffsets(list, last);
    }
  }

  /** Paging comes to an end, and the pages up to it show the list without gap or repeat. */
  ghost predicate PagesCover<T>(list: seq<T>) {
    exists last: nat :: LastPage(list, last) && Pages(list, last + 1) == list
  }

  /** Over an unchanging list that is so exactly when 32-bit offsets can page through it. */
  lemma PagesCoverExactly<T>(list: seq<T>)
    ensures PagesCover(list) <==> |list| <= PAGEABLE
  {
    if |list| <= PAGEABLE {
      PagesEnd(list);
      ExactUpTo(list);
    } else if PagesCover(list) {
      var last: nat :| LastPage(list, last) && Pages(list, last + 1) == list;
      EndsPastTheOffsets(list, last);
      RepeatsBeyond(list);
    }
  }

  // ---- the protocol ----

  datatype Signal = Now | Goto(page: nat)

  /** A fetched page as queued for the UI, or a failed fetch. */
  datatype Event<T> = Loaded(page: nat, content: Page<T>) | FetchError

  /** The refresh task's page and whether it waits; the signal slot; the queue; what the UI shows. */
  datatype State<T> = State(refreshPage: nat, waiting: bool, signal: Option<Signal>, queue: seq<Event<T>>,
                            page: nat, hasMore: bool, items: Option<seq<T>>)

  datatype Move<T> =
    | FetchOk(content: Page<T>)  // the refresh task fetches its page and queues it
    | FetchFailed
    | Tick                       // the interval ends the wait
    | TakeSignal                 // a signal ends the wait
    | Deliver                    // the UI handles the oldest event
    | PressNext
    | PressPrevious
    | PressRefresh

  predicate Enabled<T>(s: State<T>, m: Move<T>) {
    match m
    case FetchOk(_) => !s.waiting
    case FetchFailed => !s.waiting
    case Tick => s.waiting
    case TakeSignal => s.waiting && s.signal.Some?
    case Deliver => s.queue != []
    case _ => true
  }

  /** A full slot drops the new signal. */
  function TrySend(slot: Option<Signal>, signal: Signal): Option<Signal> {
    if slot.Some? then slot else Some(signal)
  }

  function Show<T>(s: State<T>, e: Event<T>): State<T> {
    match e
    case Loaded(page, content) => s.(page := page, hasMore := content.hasMore, items := Some(content.items))
    case FetchError => s.(hasMore := false, items := None)
  }

  function Next<T>(s: State<T>, m: Move<T>): State<T>
    requires Enabled(s, m)
  {
    match m
    case FetchOk(content) => s.(waiting := true, queue := s.queue + [Loaded(s.refreshPage, content)])
    case FetchFailed => s.(waiting := true, queue := s.queue + [FetchError])
    case Tick => s.(waiting := false)
    case TakeSignal =>
      s.(waiting := false, signal := None, refreshPage := if s.signal.value.Goto? then s.signal.value.page else s.refreshPage)
    case Deliver => Show(s.(queue := s.queue[1..]), s.queue[0])
    case PressNext => if s.hasMore then s.(signal := TrySend(s.signal, Goto(s.page + 1))) else s
    case PressPrevious => if s.page > 0 then s.(signal := TrySend(s.signal, Goto(s.page - 1))) else s
    case PressRefresh => s.(signal := TrySend(s.signal, Now))
  }

  function Initial<T>(): State<T> {
    State(0, false, None, [], 0, false, None)
  }

  ghost predicate IsRun<T>(states: seq<State<T>>, moves: seq<Move<T>>) {
    && |states| == |moves| + 1 && states[0] == Initial()
    && forall i | 0 <= i < |moves| :: Enabled(states[i], moves[i]) && states[i + 1] == Next(states[i], moves[i])
  }

  /** Page p was put on display, with more reported after it, before step n. */
  ghost predicate ShownWithMore<T>(states: seq<State<T>>, moves: seq<Move<T>>, p: nat, n: nat)
    requires |states| == |moves| + 1 && n <= |moves|
  {
    exists i | 0 <= i < n :: Shows(states[i], moves[i], p)
  }

  ghost predicate Shows<T>(s: State<T>, m: Move<T>, p: nat) {
    m.Deliver? && s.queue != [] && s.queue[0].Loaded? && s.queue[0].page == p && s.queue[0].content.hasMore
  }

  /** Page p may be asked for: it is the first, or every page before it was shown with more after it. */
  ghost predicate Earned<T>(states: seq<State<T>>, moves: seq<Move<T>>, p: nat, n: nat)
    requires |states| == |moves| + 1 && n <= |moves|
  {
    forall q | 0 <= q < p :: ShownWithMore(states, moves, q, n)
  }

  /** Every page number in the system is earned. */
  ghost predicate AllEarned<T>(states: seq<State<T>>, moves: seq<Move<T>>, n: nat)
    requires |states| == |moves| + 1 && n <= |moves|
  {
    var s := states[n];
    && Earned(states, moves, s.refreshPage, n)
    && Earned(states, moves, s.page, n)
    && (s.hasMore ==> ShownWithMore(states, moves, s.page, n))
    && (s.signal.Some? && s.signal.value.Goto? ==> Earned(states, moves, s.signal.value.page, n))
    && (forall i | 0 <= i < |s.queue| && s.queue[i].Loaded? :: Earned(states, moves, s.queue[i].page, n))
  }

  lemma EarnedStays<T>(states: seq<State<T>>, moves: seq<Move<T>>, p: nat, n: nat)
    requires |states| == |moves| + 1 && n < |moves| && Earned(states, moves, p, n)
    ensures Earned(states, moves, p, n + 1)
  {
    var after := n + 1;
    forall q | 0 <= q < p
      ensures ShownWithMore(states, moves, q, after)
    {
      assert ShownWithMore(states, moves, q, n);
      ShownStays(states, moves, q, n);
    }
  }

  lemma ShownStays<T>(states: seq<State<T>>, moves: seq<Move<T>>, p: nat, n: nat)
    requires |states| == |moves| + 1 && n < |moves| && ShownWithMore(states, moves, p, n)
    ensures ShownWithMore(states, moves, p, n + 1)
  {
    var i :| 0 <= i < n && Shows(states[i], moves[i], p);
    assert i < n + 1;
  }

  lemma EarnedNext<T>(states: seq<State<T>>, moves: seq<Move<T>>, p: nat, n: nat)
    requires |states| == |moves| + 1 && n <= |moves|
    requires Earned(states, moves, p, n) && ShownWithMore(states, moves, p, n)
    ensures Earned(states, moves, p + 1, n)
  {
  }

  lemma StepKeepsEarned<T>(states: seq<State<T>>, moves: seq<Move<T>>, n: nat)
    requires IsRun(states, moves) && n < |moves| && AllEarned(states, moves, n)
    ensures AllEarned(states, moves, n + 1)
  {
    var s, m, next := states[n], moves[n], states[n + 1];
    assert Enabled(s, m) && next == Next(s, m);
    EarnedStays(states, moves, s.refreshPage, n);
    EarnedStays(states, moves, s.page, n);
    if s.signal.Some? && s.signal.value.Goto? {
      EarnedStays(states, moves, s.signal.value.page, n);
    }
    if s.hasMore {
      ShownStays(states, moves, s.page, n);
      EarnedNext(states, moves, s.page, n + 1);
    }
    forall i | 0 <= i < |s.queue| && s.queue[i].Loaded?
      ensures Earned(states, moves, s.queue[i].page, n + 1)
    {
      EarnedStays(states, moves, s.queue[i].page, n);
    }
    if m.Deliver? && s.queue[0].Loaded? && s.queue[0].content.hasMore {
      assert Shows(states[n], moves[n], s.queue[0].page);
    }
  }

  lemma {:induction false} RunKeepsEarned<T>(states: seq<State<T>>, moves: seq<Move<T>>, n: nat)
    requires IsRun(states, moves) && n <= |moves|
    ensures AllEarned(states, moves, n)
  {
    if n > 0 {
      RunKeepsEarned(states, moves, n - 1);
      StepKeepsEarned(states, moves, n - 1);
    }
  }

  /**
   * In every interleaving of key presses, ticks, dropped signals and failed
   * fetches, page k is fetched only after each of the pages 0 to k-1 was
   * displayed with more reported after it.
   */
  lemma FetchedOnlyWhenEarned<T>(states: seq<State<T>>, moves: seq<Move<T>>, n: nat, q: nat)
    requires IsRun(states, moves) && n < |moves| && (moves[n].FetchOk? || moves[n].FetchFailed?)
    requires q < states[n].refreshPage
    ensures exists i | 0 <= i < n :: Shows(states[i], moves[i], q)
  {
    RunKeepsEarned(states, moves, n);
    assert ShownWithMore(states, moves, q, n);
  }

  // ---- what the keys do ----

  /** Nothing is on its way and the refresh task waits. */
  predicate Quiet<T>(s: State<T>) {
    s.waiting && s.signal == None && s.queue == []
  }

  /** A key, the signal it sends, the fetch that follows and its delivery, each possible in turn, end in this state. */
  ghost predicate KeyLeads<T>(s: State<T>, key: Move<T>, content: Page<T>, last: State<T>) {
    Enabled(s, key) && SignalLeads(Next(s, key), content, last)
  }

  ghost predicate SignalLeads<T>(s: State<T>, content: Page<T>, last: State<T>) {
    Enabled(s, TakeSignal) && FetchLeads(Next(s, TakeSignal), FetchOk(content), last)
  }

  /** A fetch and its delivery. */
  ghost predicate FetchLeads<T>(s: State<T>, fetch: Move<T>, last: State<T>) {
    Enabled(s, fetch) && Enabled(Next(s, fetch), Deliver) && Next(Next(s, fetch), Deliver) == last
  }

  /** A signal on its way to a quiet refresh task ends with its page on display. */
  lemma SignalShows<T>(s: State<T>, signal: Signal, content: Page<T>)
    requires Quiet(s)
    ensures var p := if signal.Goto? then signal.page else s.refreshPage;
            SignalLeads(s.(signal := Some(signal)), content,
                        s.(refreshPage := p, page := p, hasMore := content.hasMore, items := Some(content.items)))
  {
    var p := if signal.Goto? then signal.page else s.refreshPage;
    FetchShows(s.(waiting := false, refreshPage := p), content);
  }

  lemma FetchShows<T>(s: State<T>, content: Page<T>)
    requires !s.waiting && s.queue == []
    ensures FetchLeads(s, FetchOk(content),
                       s.(waiting := true, page := s.refreshPage, hasMore := content.hasMore, items := Some(content.items)))
    ensures FetchLeads(s, FetchFailed, s.(waiting := true, hasMore := false, items := None))
  {
    var loaded: seq<Event<T>>, failed: seq<Event<T>> := [Loaded(s.refreshPage, content)], [FetchError];
    assert s.queue + loaded == loaded && s.queue + failed == failed && loaded[1..] == [] && failed[1..] == [];
  }

  /**
   * From a quiet state each key leads, by way of one signal and one fetch, to
   * its page: next to the following one if more was reported, previous to the one before,
   * refresh to the page the refresh task is on.
   */
  lemma KeysLead<T>(s: State<T>, content: Page<T>)
    requires Quiet(s)
    ensures var shown := s.(hasMore := content.hasMore, items := Some(content.items));
            && (s.hasMore ==> KeyLeads(s, PressNext, content, shown.(page := s.page + 1, refreshPage := s.page + 1)))
            && (s.page > 0 ==> KeyLeads(s, PressPrevious, content, shown.(page := s.page - 1, refreshPage := s.page - 1)))
            && KeyLeads(s, PressRefresh, content, shown.(page := s.refreshPage))
  {
    SignalShows(s, Goto(s.page + 1), content);
    if s.page > 0 {
      SignalShows(s, Goto(s.page - 1), content);
    }
    SignalShows(s, Now, content);
  }

  /** Keys that lead nowhere: next without more, previous on the first page, and any key while a signal is pending. */
  lemma IdleKeys<T>(s: State<T>)
    ensures !s.hasMore ==> Next(s, PressNext) == s
    ensures s.page == 0 ==> Next(s, PressPrevious) == s
    ensures s.signal.Some? ==> Next(s, PressNext) == s && Next(s, PressPrevious) == s && Next(s, PressRefresh) == s
  {
  }

  /** The interval refetches the page the refresh task is on; a failed fetch clears the display and keeps its page. */
  lemma IntervalLeads<T>(s: State<T>, content: Page<T>)
    requires Quiet(s)
    ensures Enabled(s, Tick)
    ensures FetchLeads(Next(s, Tick), FetchOk(content),
                       s.(page := s.refreshPage, hasMore := content.hasMore, items := Some(content.items)))
    ensures FetchLeads(Next(s, Tick), FetchFailed, s.(hasMore := false, items := None))
  {
    FetchShows(s.(waiting := false), content);
  }

  // ---- over an unchanging list ----

  /** Every successful fetch answers with the list's page. */
  ghost predicate Faithful<T>(list: seq<T>, states: seq<State<T>>, moves: seq<Move<T>>)
    requires |states| == |moves| + 1
  {
    forall i | 0 <= i < |moves| && moves[i].FetchOk? :: moves[i].content == PageOf(list, states[i].refreshPage)
  }

  ghost predicate TrueToList<T>(list: seq<T>, s: State<T>) {
    && (forall i | 0 <= i < |s.queue| && s.queue[i].Loaded? :: s.queue[i].content == PageOf(list, s.queue[i].page))
    && (s.items.Some? ==> Page(s.items.value, s.hasMore) == PageOf(list, s.page))
  }

  lemma {:induction false} RunIsTrueToList<T>(list: seq<T>, states: seq<State<T>>, moves: seq<Move<T>>, n: nat)
    requires IsRun(states, moves) && Faithful(list, states, moves) && n <= |moves|
    ensures TrueToList(list, states[n])
  {
    if n > 0 {
      RunIsTrueToList(list, states, moves, n - 1);
      var s, m := states[n - 1], moves[n - 1];
      assert Enabled(s, m) && states[n] == Next(s, m);
    }
  }

  lemma {:induction false} ShownPagesHaveMore<T>(list: seq<T>, states: seq<State<T>>, moves: seq<Move<T>>, n: nat, p: nat)
    requires IsRun(states, moves) && Faithful(list, states, moves) && n <= |moves| && ShownWithMore(states, moves, p, n)
    ensures PageOf(list, p).hasMore
  {
    var i :| 0 <= i < n && Shows(states[i], moves[i], p);
    RunIsTrueToList(list, states, moves, i);
  }

  /**
   * Whatever is on display over an unchanging, pageable list is the stretch of
   * it that belongs to the page shown, and past the first page never empty.
   */
  lemma DisplayIsExact<T>(list: seq<T>, states: seq<State<T>>, moves: seq<Move<T>>, n: nat)
    requires IsRun(states, moves) && Faithful(list, states, moves) && n <= |moves|
    requires |list| <= PAGEABLE && states[n].items.Some?
    ensures var s := states[n];
            && s.items.value == Window(list, PAGE_SIZE, PAGE_SIZE * s.page)
            && (s.hasMore <==> PAGE_SIZE * (s.page + 1) < |list|)
            && (s.page > 0 ==> s.items.value != [])
  {
    var s := states[n];
    RunKeepsEarned(states, moves, n);
    RunIsTrueToList(list, states, moves, n);
    forall p | 0 <= p < s.page
      ensures PageOf(list, p).hasMore
    {
      assert ShownWithMore(states, moves, p, n);
      ShownPagesHaveMore(list, states, moves, n, p);
    }
    EarlierPagesAreExact(list, s.page);
    assert Offset(s.page) == PAGE_SIZE * s.page;
  }
}
