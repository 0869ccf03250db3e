/** The paged read of every open attention item against a server that may change between requests. */
module AttentionRead {
  import opened Options

  const PAGES := 20
  const ATTEMPTS := 3
  const PAGE_ITEMS := 50

  /** An item's place in the list, newest first; the identifiers order ties. */
  datatype Position = Position(updatedAt: int, id: int)
  datatype Item = Item(position: Position, content: string)
  datatype State = State(open: seq<Item>, revision: string)
  datatype Page = Page(items: seq<Item>, next: Option<Position>, revision: string)
  datatype Snapshot = Snapshot(revision: string, items: seq<Item>)
  datatype Failure = TooManyItems | KeptChanging

  /** The state each numbered request finds. */
  type Server = nat -> State

  predicate Before(a: Position, b: Position) {
    a.updatedAt < b.updatedAt || (a.updatedAt == b.updatedAt && a.id < b.id)
  }

  ghost predicate Ordered(items: seq<Item>) {
    forall i, j | 0 <= i < j < |items| :: Before(items[j].position, items[i].position)
  }

  /** The lists are ordered, and a revision identifies the open set. */
  ghost predicate Consistent(server: Server) {
    (forall n :: Ordered(server(n).open))
    && forall m, n :: server(m).revision == server(n).revision ==> server(m).open == server(n).open
  }

  // ---- The server's pages ----

  function ItemsAfter(items: seq<Item>, cursor: Option<Position>): seq<Item> {
    if items == [] then []
    else (if cursor.None? || Before(items[0].position, cursor.value) then [items[0]] else []) + ItemsAfter(items[1..], cursor)
  }

  function PageOf(state: State, cursor: Option<Position>): Page {
    var rows := ItemsAfter(state.open, cursor);
    if |rows| > PAGE_ITEMS then Page(rows[..PAGE_ITEMS], Some(rows[PAGE_ITEMS - 1].position), state.revision)
    else Page(rows, None, state.revision)
  }

  // ---- The read ----

  /** One attempt from its request number on: what it ended with, and how many requests it made. */
  datatype Attempt = Complete(snapshot: Snapshot, used: nat) | Full(used: nat) | Changed(used: nat)

  /** The page loop, at request number `at` of the attempt that began with request n. */
  function Pages(server: Server, n: nat, at: nat, items: seq<Item>, cursor: Option<Position>, revision: Option<string>): Attempt
    requires n <= at <= n + PAGES
    decreases n + PAGES - at
  {
    if at == n + PAGES then Ended(items, cursor, revision, PAGES)
    else
      var result := PageOf(server(at), cursor);
      if revision.Some? && result.revision != revision.value then Ended(items, cursor, revision, at + 1 - n)
      else if result.next.None? then Complete(Snapshot(result.revision, items + result.items), at + 1 - n)
      else Pages(server, n, at + 1, items + result.items, result.next, Some(result.revision))
  }

  function Ended(items: seq<Item>, cursor: Option<Position>, revision: Option<string>, used: nat): Attempt {
    if cursor.Some? && revision.Some? && |items| >= PAGES * PAGE_ITEMS then Full(used) else Changed(used)
  }

  function AttemptAt(server: Server, n: nat): Attempt {
    Pages(server, n, n, [], None, None)
  }

  function Read(server: Server, n: nat, attempt: nat): Result<Snapshot, Failure>
    requires attempt <= ATTEMPTS
    decreases ATTEMPTS - attempt
  {
    if attempt == ATTEMPTS then Err(KeptChanging)
    else match AttemptAt(server, n)
      case Complete(snapshot, _) => Ok(snapshot)
      case Full(_) => Err(TooManyItems)
      case Changed(used) => Read(server, n + used, attempt + 1)
  }

  function ReadFrom(server: Server, first: nat): Result<Snapshot, Failure> {
    Read(server, first, 0)
  }

  /** The page loop of one attempt, from request number n on. */
  method TryPages(server: Server, n: nat) returns (attempt: Attempt)
    ensures attempt == AttemptAt(server, n) && attempt.used <= 20
  {
    var items: seq<Item>, cursor: Option<Position>, revision: Option<string>, complete, used := [], None, None, false, 0;
    var page := 0;
    while page < PAGES
      invariant page <= PAGES && used == page
      invariant AttemptAt(server, n) == Pages(server, n, n + page, items, cursor, revision)
    {
      var result := PageOf(server(n + page), cursor);
      used := used + 1;
      if revision.Some? && result.revision != revision.value { break; }
      revision, items, cursor := Some(result.revision), items + result.items, result.next;
      if cursor.None? { complete := true; break; }
      page := page + 1;
    }
    if complete { return Complete(Snapshot(revision.value, items), used); }
    if cursor.Some? && revision.Some? && |items| >= PAGES * PAGE_ITEMS { return Full(used); }
    return Changed(used);
  }

  lemma ReadGoesOn(server: Server, n: nat, attempt: nat, tried: Attempt)
    requires attempt < ATTEMPTS && tried == AttemptAt(server, n)
    ensures tried.Complete? ==> Read(server, n, attempt) == Ok(tried.snapshot)
    ensures tried.Full? ==> Read(server, n, attempt) == Err(TooManyItems)
    ensures tried.Changed? ==> Read(server, n, attempt) == Read(server, n + tried.used, attempt + 1)
  {
  }

  /** `requests` counts the requests sent, from the server's request number `first` on. */
  method ReadAll(server: Server, first: nat) returns (r: Result<Snapshot, Failure>, requests: nat)
    ensures r == ReadFrom(server, first)
    ensures requests <= 60
  {
    requests := 0;
    for attempt := 0 to ATTEMPTS
      invariant requests <= attempt * PAGES
      invariant ReadFrom(server, first) == Read(server, first + requests, attempt)
    {
      var tried := TryPages(server, first + requests);
      ReadGoesOn(server, first + requests, attempt, tried);
      requests := requests + tried.used;
      match tried
      case Complete(snapshot, _) => return Ok(snapshot), requests;
      case Full(_) => return Err(TooManyItems), requests;
      case Changed(_) =>
    }
    return Err(KeptChanging), requests;
  }

  // ---- What an attempt does ----

  lemma {:induction false} EveryItem(items: seq<Item>)
    ensures ItemsAfter(items, None) == items
  {
    if items != [] {
      EveryItem(items[1..]);
      assert [items[0]] + items[1..] == items;
    }
  }

  lemma {:induction false} OlderItems(items: seq<Item>, cursor: Position)
    requires forall i | 0 <= i < |items| :: Before(items[i].position, cursor)
    ensures ItemsAfter(items, Some(cursor)) == items
  {
    if items != [] {
      OlderItems(items[1..], cursor);
      assert [items[0]] + items[1..] == items;
    }
  }

  /** The cursor of the k-th item continues right after it. */
  lemma {:induction false} CursorCuts(items: seq<Item>, k: nat)
    requires Ordered(items) && 1 <= k <= |items|
    ensures ItemsAfter(items, Some(items[k - 1].position)) == items[k..]
  {
    var cursor := items[k - 1].position;
    var rest := items[1..];
    assert Ordered(rest) by {
      assert forall i | 0 <= i < |rest| :: rest[i] == items[i + 1];
    }
    if k == 1 {
      forall i | 0 <= i < |rest| ensures Before(rest[i].position, cursor) {
        assert rest[i] == items[i + 1];
      }
      OlderItems(rest, cursor);
    } else {
      assert rest[k - 2] == items[k - 1];
      CursorCuts(rest, k - 1);
      assert Before(cursor, items[0].position);
      assert rest[k - 1..] == items[k..];
    }
  }

  /** How many pages a list takes. */
  function PageCount(length: nat): nat {
    if length == 0 then 1 else (length + 49) / 50
  }

  /** The first `pages` requests of the attempt find the revision of its first request. */
  ghost predicate Steady(server: Server, n: nat, pages: nat) {
    forall i | 0 <= i < pages :: RevisionAt(server, n, i) == server(n).revision
  }

  function RevisionAt(server: Server, n: nat, i: nat): string {
    server(n + i).revision
  }

  function Cut(items: seq<Item>, page: nat): Option<Position>
    requires page * PAGE_ITEMS <= |items|
  {
    CutAt(items, page * PAGE_ITEMS)
  }

  /** The cursor after the first k items; none at the start. */
  function CutAt(items: seq<Item>, k: nat): Option<Position>
    requires k <= |items|
  {
    if k == 0 then None else Some(items[k - 1].position)
  }

  lemma PageAt(server: Server, n: nat, page: nat)
    requires Consistent(server) && Steady(server, n, page + 1) && page < PageCount(|server(n).open|)
    ensures var open, done := server(n).open, page * PAGE_ITEMS;
            && done <= |open|
            && var result := PageOf(server(n + page), Cut(open, page));
            && result.revision == server(n).revision
            && (page + 1 < PageCount(|open|) ==> |open| >= done + PAGE_ITEMS && open[..done] + result.items == open[..done + PAGE_ITEMS]
                                                 && result.next == Cut(open, page + 1))
            && (page + 1 == PageCount(|open|) ==> open[..done] + result.items == open && result.next.None?)
  {
    var open, done := server(n).open, page * PAGE_ITEMS;
    assert RevisionAt(server, n, page) == server(n).revision;
    assert server(n + page).open == open;
    RestAfter(open, done);
    assert open[..done] + open[done..] == open;
  }

  lemma RestAfter(open: seq<Item>, k: nat)
    requires Ordered(open) && k <= |open|
    ensures ItemsAfter(open, CutAt(open, k)) == open[k..]
  {
    if k == 0 {
      EveryItem(open);
    } else {
      CursorCuts(open, k);
    }
  }

  /** An attempt completes exactly when the revision holds for as many requests as the open set takes pages, and it takes
      at most twenty; it then returns that whole open set, in order. */
  ghost predicate Expected(server: Server, n: nat, attempt: Attempt) {
    var open, count := server(n).open, PageCount(|server(n).open|);
    && (attempt.Complete? <==> count <= 20 && Steady(server, n, count))
    && (attempt.Complete? ==> attempt.snapshot == Snapshot(server(n).revision, open) && attempt.used == count)
    && (attempt.Full? <==> count > 20 && Steady(server, n, 20))
    && attempt.used <= 20
  }

  /** The attempt from a page on, when the earlier pages agreed. */
  ghost function Rest(server: Server, n: nat, page: nat): Attempt
    requires page <= PAGES && page * PAGE_ITEMS <= |server(n).open|
  {
    var open := server(n).open;
    Pages(server, n, n + page, open[..page * PAGE_ITEMS], Cut(open, page), if page == 0 then None else Some(server(n).revision))
  }

  lemma UnsteadyEnds(server: Server, n: nat, page: nat)
    requires page < PAGES && page < PageCount(|server(n).open|) && page * PAGE_ITEMS <= |server(n).open|
    requires RevisionAt(server, n, page) != server(n).revision
    ensures Expected(server, n, Rest(server, n, page))
  {
    assert RevisionAt(server, n, 0) == server(n).revision;
  }

  lemma FullEnds(server: Server, n: nat)
    requires Steady(server, n, PAGES) && PAGES < PageCount(|server(n).open|) && PAGES * PAGE_ITEMS <= |server(n).open|
    ensures Expected(server, n, Rest(server, n, PAGES))
  {
  }

  lemma LastPageEnds(server: Server, n: nat, page: nat)
    requires Consistent(server) && page < PAGES && page + 1 == PageCount(|server(n).open|) && Steady(server, n, page + 1)
    requires page * PAGE_ITEMS <= |server(n).open|
    ensures Expected(server, n, Rest(server, n, page))
  {
    PageAt(server, n, page);
  }

  lemma PageContinues(server: Server, n: nat, page: nat)
    requires Consistent(server) && page < PAGES && page + 1 < PageCount(|server(n).open|) && Steady(server, n, page + 1)
    requires (page + 1) * PAGE_ITEMS <= |server(n).open|
    ensures Rest(server, n, page) == Rest(server, n, page + 1)
  {
    PageAt(server, n, page);
  }

  lemma {:induction false} AttemptContinues(server: Server, n: nat, page: nat)
    requires Consistent(server) && page <= PAGES && page < PageCount(|server(n).open|) && Steady(server, n, page)
    requires page * PAGE_ITEMS <= |server(n).open|
    ensures Expected(server, n, Rest(server, n, page))
    decreases PAGES - page
  {
    if page == PAGES {
      FullEnds(server, n);
    } else if RevisionAt(server, n, page) != server(n).revision {
      UnsteadyEnds(server, n, page);
    } else if page + 1 == PageCount(|server(n).open|) {
      LastPageEnds(server, n, page);
    } else {
      PageContinues(server, n, page);
      AttemptContinues(server, n, page + 1);
    }
  }

  lemma AttemptCompletesExactly(server: Server, n: nat)
    requires Consistent(server)
    ensures Expected(server, n, AttemptAt(server, n))
  {
    assert server(n).open[..0] == [];
    AttemptContinues(server, n, 0);
  }

  lemma {:induction false} LaterAttempts(server: Server, n: nat, attempt: nat)
    requires Consistent(server) && attempt <= ATTEMPTS && Read(server, n, attempt).Ok?
    ensures exists m | n <= m < n + (ATTEMPTS - attempt) * PAGES :: Read(server, n, attempt).value == Snapshot(server(m).revision, server(m).open)
    decreases ATTEMPTS - attempt
  {
    var tried := AttemptAt(server, n);
    AttemptCompletesExactly(server, n);
    ReadGoesOn(server, n, attempt, tried);
    if tried.Changed? {
      LaterAttempts(server, n + tried.used, attempt + 1);
    }
  }

  /** Every snapshot is the complete ordered open set of the server at one single request, however it changes between. */
  lemma SnapshotsAreStates(server: Server, first: nat)
    requires Consistent(server) && ReadFrom(server, first).Ok?
    ensures exists m | first <= m < first + 60 :: ReadFrom(server, first).value == Snapshot(server(m).revision, server(m).open)
  {
    LaterAttempts(server, first, 0);
  }

  /** A server that does not change is always read, unless more than twenty pages are open. */
  lemma QuietServerIsRead(server: Server, first: nat, state: State)
    requires Consistent(server) && forall n :: server(n) == state
    ensures ReadFrom(server, first) == if |state.open| <= 1000 then Ok(Snapshot(state.revision, state.open)) else Err(TooManyItems)
  {
    AttemptCompletesExactly(server, first);
    ReadGoesOn(server, first, 0, AttemptAt(server, first));
  }
}
