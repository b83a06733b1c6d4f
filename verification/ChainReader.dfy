/**
  Backward pagination over the chain in src/toolkit/chain-reader.ts.

  The RPC is a function from a request to a page, so two scans of the same chain can be compared;
  decoding a transaction is a function parameter, with None for what the loops skip.
 */
module ChainReader {
  import opened Wrappers

  /** The `start` argument of getTransactions. */
  datatype Cursor = Latest | At(id: int)

  /** A raw transaction; `id` is None when the RPC did not send one. */
  datatype RawTx<+C> = RawTx(id: Option<int>, content: C)

  /** None stands for an answer that is not an array. */
  type Rpc<!C> = Cursor -> Option<seq<RawTx<C>>>

  const MAX_PAGES := 5
  const MAX_REPLY_PAGES := 10
  const PAGE_SIZE := 100

  /** The posts among the transactions of a page, in order. */
  function PostsOf<C, P>(txs: seq<RawTx<C>>, decode: RawTx<C> -> Option<P>): seq<P> {
    if txs == [] then []
    else PostsOf(txs[..|txs| - 1], decode) + match decode(txs[|txs| - 1]) case None => [] case Some(p) => [p]
  }

  /** The cursor for the page before this one; None when pagination ends. */
  function PreviousPage<C>(txs: seq<RawTx<C>>, cursor: Cursor): Option<Cursor>
    requires txs != []
  {
    var last := txs[|txs| - 1].id;
    if last.None? || last.value <= 1 then None
    else
      var start := if last.value - PAGE_SIZE < 1 then 1 else last.value - PAGE_SIZE;
      if At(start) == cursor then None else Some(At(start))
  }

  /** The plain scan: every page, up to the page limit, without looking at how much is wanted. */
  function FullScan<C, P>(rpc: Rpc<C>, decode: RawTx<C> -> Option<P>, cursor: Cursor, pages: nat): seq<P>
    decreases pages, 0
  {
    if pages == 0 then []
    else
      match rpc(cursor)
      case None => []
      case Some(txs) => if txs == [] then [] else PostsOf(txs, decode) + Earlier(rpc, decode, txs, cursor, pages - 1)
  }

  function Earlier<C, P>(rpc: Rpc<C>, decode: RawTx<C> -> Option<P>, txs: seq<RawTx<C>>, cursor: Cursor, pages: nat): seq<P>
    requires txs != []
    decreases pages, 1
  {
    match PreviousPage(txs, cursor)
    case None => []
    case Some(next) => FullScan(rpc, decode, next, pages)
  }

  /** Array.slice(0, limit): a negative limit counts from the end. */
  function FirstN<P>(s: seq<P>, limit: int): seq<P> {
    if limit >= |s| then s else if limit >= 0 then s[..limit] else if |s| + limit > 0 then s[..|s| + limit] else []
  }

  /** The inner loop of both functions. */
  method AddPosts<C, P>(txs: seq<RawTx<C>>, decode: RawTx<C> -> Option<P>, posts: seq<P>) returns (r: seq<P>)
    ensures r == posts + PostsOf(txs, decode)
  {
    r := posts;
    assert posts + [] == posts;
    for i := 0 to |txs|
      invariant r == posts + PostsOf(txs[..i], decode)
    {
      assert txs[..i + 1][..i] == txs[..i];
      var post := decode(txs[i]);
      if post.Some? {
        r := r + [post.value];
      }
    }
    assert txs[..|txs|] == txs;
  }

  /** A cursor below id `last`: a whole page below it, or as far down as there is. */
  predicate IsPageBelow(cursor: Cursor, last: int) {
    cursor.At? && 1 <= cursor.id < last && (cursor.id == last - PAGE_SIZE || (cursor.id == 1 && last <= PAGE_SIZE))
  }

  /** How both loops move backward, by transaction id, not block number: always to the page below the
      oldest transaction, never to the page they come from, and never when there is nothing older. */
  method StepBack<C>(txs: seq<RawTx<C>>, prevStart: Cursor) returns (next: Option<Cursor>)
    requires txs != []
    ensures var last := txs[|txs| - 1].id;
      && (next.Some? ==> last.Some? && IsPageBelow(next.value, last.value) && next.value != prevStart)
      && (next.None? ==> last.None? || last.value <= 1 || IsPageBelow(prevStart, last.value))
    ensures next == PreviousPage(txs, prevStart)
  {
    var lastTx := txs[|txs| - 1];
    if lastTx.id.None? || lastTx.id.value <= 1 {
      return None;
    }
    var start := lastTx.id.value - 100;
    if start < 1 {
      start := 1;
    }
    if At(start) == prevStart {
      return None;
    }
    next := Some(At(start));
  }

  lemma ScanStep<C, P>(rpc: Rpc<C>, decode: RawTx<C> -> Option<P>, cursor: Cursor, pages: nat)
    ensures FullScan(rpc, decode, cursor, pages) ==
      if pages == 0 || rpc(cursor).None? || rpc(cursor).value == [] then []
      else PostsOf(rpc(cursor).value, decode) + Earlier(rpc, decode, rpc(cursor).value, cursor, pages - 1)
  {
  }

  lemma EarlierStep<C, P>(rpc: Rpc<C>, decode: RawTx<C> -> Option<P>, txs: seq<RawTx<C>>, cursor: Cursor, pages: nat)
    requires txs != []
    ensures Earlier(rpc, decode, txs, cursor, pages) ==
      match PreviousPage(txs, cursor) case None => [] case Some(next) => FullScan(rpc, decode, next, pages)
  {
  }

  lemma EnoughIsEnough<P>(posts: seq<P>, rest: seq<P>, limit: int)
    requires rest == [] || |posts| >= limit
    requires limit <= 0 ==> posts == []
    ensures FirstN(posts, limit) == if limit <= 0 then [] else FirstN(posts + rest, limit)
  {
    assert posts + [] == posts;
  }

  lemma FirstNIs<P>(s: seq<P>, limit: int)
    ensures limit > 0 ==> FirstN(s, limit) == if |s| <= limit then s else s[..limit]
  {
  }

  lemma Regrouped<P>(a: seq<P>, b: seq<P>, c: seq<P>)
    ensures a + (b + c) == a + b + c
  {
  }

  /** getHivePosts: stopping as soon as enough posts are there changes nothing. */
  method GetHivePosts<C, P>(rpc: Rpc<C>, decode: RawTx<C> -> Option<P>, limit: int) returns (r: seq<P>)
    ensures var all := FullScan(rpc, decode, Latest, 5);
      r == if limit <= 0 then [] else if |all| <= limit then all else all[..limit]
  {
    hide PostsOf, FullScan, Earlier, FirstN, PreviousPage, IsPageBelow;
    var posts: seq<P> := [];
    var start := Latest;
    var page := 0;
    ghost var all := FullScan(rpc, decode, Latest, MAX_PAGES);
    ghost var rest := all;
    while page < 5 && |posts| < limit
      invariant 0 <= page <= MAX_PAGES
      invariant rest == FullScan(rpc, decode, start, MAX_PAGES - page)
      invariant posts + rest == all
      invariant limit <= 0 ==> posts == []
    {
      var txs := rpc(start);
      ScanStep(rpc, decode, start, MAX_PAGES - page);
      if txs.None? || txs.value == [] {
        rest := [];
        break;
      }
      ghost var before := posts;
      posts := AddPosts(txs.value, decode, posts);
      rest := Earlier(rpc, decode, txs.value, start, MAX_PAGES - page - 1);
      Regrouped(before, PostsOf(txs.value, decode), rest);
      EarlierStep(rpc, decode, txs.value, start, MAX_PAGES - page - 1);
      var next := StepBack(txs.value, start);
      if next.None? {
        break;
      }
      start := next.value;
      page := page + 1;
    }
    ScanStep(rpc, decode, start, 0);
    assert rest == [] || |posts| >= limit;
    EnoughIsEnough(posts, rest, limit);
    r := FirstN(posts, limit);
    FirstNIs(all, limit);
  }

  // ---------------------------------------------------------------- replies

  /** A reply as getRepliesTo collects it: decoding has already dropped what answers no target. */
  datatype Reply<+P> = Reply(post: P, replyTo: string)

  function Targets<P>(replies: seq<Reply<P>>): set<string> {
    set i | 0 <= i < |replies| :: replies[i].replyTo
  }

  ghost predicate AnswersOnly<C(!new), P>(decode: RawTx<C> -> Option<Reply<P>>, targets: set<string>) {
    forall tx :: decode(tx).Some? ==> decode(tx).value.replyTo in targets
  }

  lemma {:induction false} DecodedReplies<C(!new), P>(txs: seq<RawTx<C>>, decode: RawTx<C> -> Option<Reply<P>>, targets: set<string>)
    requires AnswersOnly(decode, targets)
    ensures Targets(PostsOf(txs, decode)) <= targets
  {
    if txs != [] {
      DecodedReplies(txs[..|txs| - 1], decode, targets);
      var most, all := PostsOf(txs[..|txs| - 1], decode), PostsOf(txs, decode);
      forall t | t in Targets(all) ensures t in targets {
        var i :| 0 <= i < |all| && all[i].replyTo == t;
        if i < |most| { assert most[i] == all[i] && most[i].replyTo in Targets(most); }
      }
    }
  }

  lemma TargetsAdd<P>(a: seq<Reply<P>>, b: seq<Reply<P>>)
    ensures Targets(a + b) == Targets(a) + Targets(b)
  {
    forall t | t in Targets(a) ensures t in Targets(a + b) {
      var i :| 0 <= i < |a| && a[i].replyTo == t;
      assert (a + b)[i] == a[i];
    }
    forall t | t in Targets(b) ensures t in Targets(a + b) {
      var i :| 0 <= i < |b| && b[i].replyTo == t;
      assert (a + b)[|a| + i] == b[i];
    }
    forall t | t in Targets(a + b) ensures t in Targets(a) + Targets(b) {
      var i :| 0 <= i < |a + b| && (a + b)[i].replyTo == t;
      if i < |a| { assert a[i].replyTo in Targets(a); } else { assert b[i - |a|].replyTo in Targets(b); }
    }
  }

  lemma SubsetOfSameSize(a: set<string>, b: set<string>)
    requires a <= b
    ensures |b| <= |a| ==> a == b
  {
    assert |b - a| == |b| - |a|;
  }

  /** How many pages getRepliesTo reads: from the second page on it stops as soon as every target has
      got a reply. */
  function PagesRead<C, P>(rpc: Rpc<C>, decode: RawTx<C> -> Option<Reply<P>>, targets: set<string>, k: nat): (r: nat)
    requires k <= MAX_REPLY_PAGES
    ensures k <= r <= MAX_REPLY_PAGES
    decreases MAX_REPLY_PAGES - k
  {
    if k == MAX_REPLY_PAGES || (k >= 2 && Targets(FullScan(rpc, decode, Latest, k)) == targets) then k
    else PagesRead(rpc, decode, targets, k + 1)
  }

  /** `posts` are those of the first `page` pages, and the scan goes on from `cursor`. */
  ghost predicate Reached<C, P>(rpc: Rpc<C>, decode: RawTx<C> -> Option<P>, posts: seq<P>, cursor: Cursor, page: nat) {
    forall m :: page <= m ==> FullScan(rpc, decode, Latest, m) == posts + FullScan(rpc, decode, cursor, m - page)
  }

  /** `posts` are those of the first `page` pages, and there are no more. */
  ghost predicate Ended<C, P>(rpc: Rpc<C>, decode: RawTx<C> -> Option<P>, posts: seq<P>, page: nat) {
    forall m :: page <= m ==> FullScan(rpc, decode, Latest, m) == posts
  }

  lemma NothingReached<C, P>(rpc: Rpc<C>, decode: RawTx<C> -> Option<P>)
    ensures Reached(rpc, decode, [], Latest, 0)
  {
    hide FullScan;
    forall m: nat ensures FullScan(rpc, decode, Latest, m) == [] + FullScan(rpc, decode, Latest, m - 0) {
    }
  }

  lemma ReachedIsScan<C, P>(rpc: Rpc<C>, decode: RawTx<C> -> Option<P>, posts: seq<P>, cursor: Cursor, page: nat)
    requires Reached(rpc, decode, posts, cursor, page)
    ensures FullScan(rpc, decode, Latest, page) == posts
  {
    assert FullScan(rpc, decode, Latest, page) == posts + FullScan(rpc, decode, cursor, page - page);
  }

  /** One more page: the scan goes on, or it is over. */
  lemma OneMorePage<C, P>(rpc: Rpc<C>, decode: RawTx<C> -> Option<P>, posts: seq<P>, cursor: Cursor, page: nat)
    requires Reached(rpc, decode, posts, cursor, page)
    ensures var txs := rpc(cursor);
      if txs.None? || txs.value == [] then Ended(rpc, decode, posts, page)
      else
        var more := posts + PostsOf(txs.value, decode);
        match PreviousPage(txs.value, cursor)
        case None => Ended(rpc, decode, more, page + 1)
        case Some(next) => Reached(rpc, decode, more, next, page + 1)
  {
    hide FullScan, Earlier, PostsOf, PreviousPage;
    var txs := rpc(cursor);
    forall m | page <= m
      ensures FullScan(rpc, decode, Latest, m) == posts + FullScan(rpc, decode, cursor, m - page)
    {
    }
    if txs.None? || txs.value == [] {
      forall m | page <= m ensures FullScan(rpc, decode, Latest, m) == posts {
        ScanStep(rpc, decode, cursor, m - page);
      }
    } else {
      var more := posts + PostsOf(txs.value, decode);
      forall m | page + 1 <= m
        ensures FullScan(rpc, decode, Latest, m) == more + Earlier(rpc, decode, txs.value, cursor, m - page - 1)
      {
        ScanStep(rpc, decode, cursor, m - page);
      }
      forall m | page + 1 <= m
        ensures match PreviousPage(txs.value, cursor)
          case None => FullScan(rpc, decode, Latest, m) == more
          case Some(next) => FullScan(rpc, decode, Latest, m) == more + FullScan(rpc, decode, next, m - (page + 1))
      {
        EarlierStep(rpc, decode, txs.value, cursor, m - page - 1);
        assert FullScan(rpc, decode, Latest, m) == more + Earlier(rpc, decode, txs.value, cursor, m - page - 1);
      }
    }
  }

  /** getRepliesTo: the result is the scan of exactly so many pages; replies further back are missed. */
  method GetRepliesTo<C(!new), P>(rpc: Rpc<C>, decode: RawTx<C> -> Option<Reply<P>>, targets: set<string>)
    returns (replies: seq<Reply<P>>)
    requires AnswersOnly(decode, targets)
    ensures replies == if targets == {} then [] else FullScan(rpc, decode, Latest, PagesRead(rpc, decode, targets, 0))
  {
    hide PostsOf, FullScan, Earlier, Targets, PreviousPage, AnswersOnly, Reached, IsPageBelow;
    replies := [];
    if targets == {} {
      return;
    }
    var start := Latest;
    ghost var all := PagesRead(rpc, decode, targets, 0);
    NoTargets<P>();
    NothingReached(rpc, decode);
    assert all == PagesRead(rpc, decode, targets, 1);
    var page := 0;
    while page < 10
      invariant 0 <= page <= MAX_REPLY_PAGES
      invariant all == if page == MAX_REPLY_PAGES then page else PagesRead(rpc, decode, targets, page + 1)
      invariant Reached(rpc, decode, replies, start, page) && Targets(replies) <= targets
    {
      var txs := rpc(start);
      OneMorePage(rpc, decode, replies, start, page);
      if txs.None? || txs.value == [] {
        return;
      }
      DecodedReplies(txs.value, decode, targets);
      TargetsAdd(replies, PostsOf(txs.value, decode));
      replies := AddPosts(txs.value, decode, replies);
      var next := StepBack(txs.value, start);
      if next.Some? {
        ReachedIsScan(rpc, decode, replies, next.value, page + 1);
      }
      assert FullScan(rpc, decode, Latest, page + 1) == replies;
      if page >= 1 && |replies| > 0 {
        var foundTargets := Targets(replies);
        SubsetOfSameSize(foundTargets, targets);
        if |targets| <= |foundTargets| {
          return;
        }
      }
      if next.None? {
        return;
      }
      start := next.value;
      page := page + 1;
    }
    ReachedIsScan(rpc, decode, replies, start, page);
  }

  lemma NoTargets<P>()
    ensures Targets<P>([]) == {}
  {
  }

  // ---------------------------------------------------------------- a chain of contiguous ids

  /** Ids from `hi` down to `lo`. */
  function Down(hi: int, lo: int): seq<int> {
    if hi < lo then [] else seq(hi - lo + 1, i => hi - i)
  }

  /** The chain holds ids 1..n; a page is the window [start, start + 99] of it, newest first. */
  function Window(n: nat, cursor: Cursor): seq<int> {
    match cursor
    case Latest => Down(n, if n <= 100 then 1 else n - 99)
    case At(start) => Down(if start + 99 <= n then start + 99 else n, if start < 1 then 1 else start)
  }

  function ChainRpc(n: nat): Rpc<int> {
    (cursor: Cursor) => Some(seq(|Window(n, cursor)|, i requires 0 <= i < |Window(n, cursor)| =>
                                 RawTx(Some(Window(n, cursor)[i]), Window(n, cursor)[i])))
  }

  /** Every transaction taken for a post. */
  function IdOf(): RawTx<int> -> Option<int> {
    (tx: RawTx<int>) => Some(tx.content)
  }

  lemma {:induction false} PostsAreIds(txs: seq<RawTx<int>>)
    ensures |PostsOf(txs, IdOf())| == |txs|
    ensures forall i :: 0 <= i < |txs| ==> PostsOf(txs, IdOf())[i] == txs[i].content
  {
    if txs != [] { PostsAreIds(txs[..|txs| - 1]); }
  }

  lemma WindowPosts(n: nat, cursor: Cursor)
    ensures var page, window := ChainRpc(n)(cursor), Window(n, cursor);
      && page.Some? && |page.value| == |window| && PostsOf(page.value, IdOf()) == window
      && (window != [] ==> page.value[|window| - 1].id == Some(window[|window| - 1]))
  {
    PostsAreIds(ChainRpc(n)(cursor).value);
  }

  /** The scan from a page [start, start + 99] with `pages` pages to go. */
  function ScannedFrom(start: int, pages: nat): seq<int>
    decreases pages
  {
    if pages == 0 then []
    else if start == 1 then Down(100, 1)
    else Down(start + 99, start) + ScannedFrom(if start - 100 < 1 then 1 else start - 100, pages - 1)
  }

  lemma PageAt(n: nat, start: int)
    requires 1 <= start && start + 99 <= n
    ensures var page := ChainRpc(n)(At(start));
      && page.Some? && page.value != [] && PostsOf(page.value, IdOf()) == Down(start + 99, start)
      && PreviousPage(page.value, At(start)) == if start == 1 then None else Some(At(if start - 100 < 1 then 1 else start - 100))
  {
    hide PostsOf, ChainRpc, IdOf;
    WindowPosts(n, At(start));
  }

  lemma {:induction false} ScanFromPage(n: nat, start: int, pages: nat)
    requires 1 <= start && start + 99 <= n
    ensures FullScan(ChainRpc(n), IdOf(), At(start), pages) == ScannedFrom(start, pages)
  {
    if pages > 0 {
      hide FullScan, Earlier, ChainRpc, IdOf, PostsOf, PreviousPage, Down;
      PageAt(n, start);
      var txs := ChainRpc(n)(At(start)).value;
      ScanStep(ChainRpc(n), IdOf(), At(start), pages);
      EarlierStep(ChainRpc(n), IdOf(), txs, At(start), pages - 1);
      if start > 1 { ScanFromPage(n, if start - 100 < 1 then 1 else start - 100, pages - 1); }
    }
  }

  /** Closed form of the whole five-page scan: the newest 500 ids without gap or repetition, except
      that a chain of 101 to 499 ids, not a multiple of 100, has its last page clipped to start at
      1 and reads ids that the page before already had. */
  lemma ScanOfAChain(n: nat)
    ensures FullScan(ChainRpc(n), IdOf(), Latest, MAX_PAGES) ==
      if n >= 500 then Down(n, n - 499)
      else if n <= 100 || n % 100 == 0 then Down(n, 1)
      else Down(n, n % 100 + 1) + Down(100, 1)
  {
    hide Down, ScannedFrom, FullScan, ChainRpc, IdOf;
    FirstPage(n);
    if n > 100 {
      var next := if n - 199 < 1 then 1 else n - 199;
      ScanFromPage(n, next, 4);
      FourPages(n, next);
    }
  }

  lemma FirstPage(n: nat)
    ensures FullScan(ChainRpc(n), IdOf(), Latest, MAX_PAGES) ==
      if n <= 100 then Down(n, 1)
      else Down(n, n - 99) + FullScan(ChainRpc(n), IdOf(), At(if n - 199 < 1 then 1 else n - 199), 4)
  {
    hide FullScan, Earlier, ChainRpc, IdOf, PostsOf;
    WindowPosts(n, Latest);
    ScanStep(ChainRpc(n), IdOf(), Latest, MAX_PAGES);
    if n > 0 {
      var txs := ChainRpc(n)(Latest).value;
      EarlierStep(ChainRpc(n), IdOf(), txs, Latest, 4);
    }
  }

  lemma FourPages(n: nat, next: int)
    requires n > 100 && next == if n - 199 < 1 then 1 else n - 199
    ensures Down(n, n - 99) + ScannedFrom(next, 4) ==
      if n >= 500 then Down(n, n - 499) else if n % 100 == 0 then Down(n, 1) else Down(n, n % 100 + 1) + Down(100, 1)
  {
    hide Down;
    if n >= 200 {
      hide LowestId, Again, ScannedFrom;
      ScannedClosedForm(next, 4);
      FourPagesBelow(n);
      var lo, again := LowestId(next, 4), Again(next, 4);
      DownAdds(n, n - 99, lo);
      assert Down(n, n - 99) + (Down(n - 100, lo) + again) == Down(n, n - 99) + Down(n - 100, lo) + again;
      assert Down(n, lo) + [] == Down(n, lo);
    }
  }

  /** The page from `start` and the ones below it go without a gap down to this id. */
  function LowestId(start: int, pages: nat): int {
    if start - 100 * (pages - 1) >= 1 then start - 100 * (pages - 1) else (start - 1) % 100 + 1
  }

  /** The page that is read again because its window was clipped to start at 1. */
  function Again(start: int, pages: nat): seq<int> {
    if start - 100 * (pages - 1) >= 1 || start % 100 == 1 then [] else Down(100, 1)
  }

  lemma FourPagesBelow(n: nat)
    requires n >= 200
    ensures LowestId(n - 199, 4) == (if n >= 500 then n - 499 else n % 100 + 1) <= n - 99
    ensures Again(n - 199, 4) == if n >= 500 || n % 100 == 0 then [] else Down(100, 1)
  {
    hide Down;
    assert (n - 200) % 100 == n % 100;
  }

  lemma OnePageDown(start: int, pages: nat)
    requires start > 100 && pages > 1
    ensures LowestId(start, pages) == LowestId(start - 100, pages - 1) <= start
    ensures Again(start, pages) == Again(start - 100, pages - 1)
  {
  }

  lemma {:induction false} ScannedClosedForm(start: int, pages: nat)
    requires start >= 1 && pages >= 1
    ensures ScannedFrom(start, pages) == Down(start + 99, LowestId(start, pages)) + Again(start, pages)
  {
    hide Down;
    if start > 100 && pages > 1 {
      hide LowestId, Again;
      ScannedClosedForm(start - 100, pages - 1);
      OnePageDown(start, pages);
      var lo, again := LowestId(start, pages), Again(start, pages);
      DownAdds(start + 99, start, lo);
      assert Down(start + 99, start) + (Down(start - 1, lo) + again) == Down(start + 99, start) + Down(start - 1, lo) + again;
    } else if pages == 1 {
      assert ScannedFrom(start, 1) == if start == 1 then Down(100, 1) else Down(start + 99, start) + [];
      assert Down(start + 99, start) + [] == Down(start + 99, start);
    } else {
      assert Down(100, 1) + [] == Down(100, 1);
      assert ScannedFrom(1, pages - 1) == Down(100, 1);
    }
  }

  lemma DownAdds(hi: int, mid: int, lo: int)
    requires lo <= mid <= hi + 1
    ensures Down(hi, mid) + Down(mid - 1, lo) == Down(hi, lo)
  {
  }

  predicate Repeats(ids: seq<int>) {
    exists i, j :: 0 <= i < j < |ids| && ids[i] == ids[j]
  }

  lemma ClippedScan(n: nat, ids: seq<int>)
    requires 100 < n < 500 && n % 100 != 0 && ids == Down(n, n % 100 + 1) + Down(100, 1)
    ensures (forall id :: id in ids <==> 1 <= id <= n) && Repeats(ids)
  {
    var a, b := Down(n, n % 100 + 1), Down(100, 1);
    forall id | 1 <= id <= n ensures id in ids {
      if id > n % 100 { assert a[n - id] == id && ids[n - id] == id; } else { assert b[100 - id] == id && ids[|a| + 100 - id] == id; }
    }
    assert ids[n - 100] == a[n - 100] == 100 && ids[|a|] == b[0] == 100;
  }

  lemma DownScan(n: nat, lo: int)
    ensures (forall id :: id in Down(n, lo) <==> lo <= id <= n) && !Repeats(Down(n, lo))
  {
    forall id | lo <= id <= n ensures id in Down(n, lo) {
      assert Down(n, lo)[n - id] == id;
    }
  }

  /** The scan reads every id of the newest 500 at least once, and some id twice exactly when the
      chain is longer than a page, shorter than five, and not a whole number of pages. */
  lemma PagesLeaveNoGap(n: nat)
    ensures var ids := FullScan(ChainRpc(n), IdOf(), Latest, MAX_PAGES);
      && (forall id :: id in ids <==> 1 <= id <= n && id > n - 500)
      && (Repeats(ids) <==> 100 < n < 500 && n % 100 != 0)
  {
    hide Down, Repeats, FullScan;
    ScanOfAChain(n);
    if 100 < n < 500 && n % 100 != 0 {
      ClippedScan(n, FullScan(ChainRpc(n), IdOf(), Latest, MAX_PAGES));
    } else {
      DownScan(n, if n >= 500 then n - 499 else 1);
    }
  }

  /** For instance 150 transactions: the second page is clipped to [1, 100] and reads 100 to 51 again. */
  lemma ClippedPageExample()
    ensures var ids := FullScan(ChainRpc(150), IdOf(), Latest, MAX_PAGES);
      ids == Down(150, 51) + Down(100, 1) && ids[0] == 150 && ids[50] == ids[100] == 100 && |ids| == 200
  {
    hide FullScan;
    ScanOfAChain(150);
  }

  // ---------------------------------------------------------------- any number of pages

  lemma ScannedCovers(start: int, pages: nat, id: int)
    requires start >= 1 && pages >= 1
    ensures id in ScannedFrom(start, pages) <==> 1 <= id <= start + 99 && id > start - 100 * (pages - 1) - 1
    decreases pages
  {
    hide Down;
    DownMembers(start + 99, start, id);
    DownMembers(100, 1, id);
    if start > 1 && pages > 1 {
      ScannedCovers(if start - 100 < 1 then 1 else start - 100, pages - 1, id);
    } else {
      assert pages == 1 ==> ScannedFrom(start, pages) == (if start == 1 then Down(100, 1) else Down(start + 99, start)) by {
        OnePage(start);
      }
    }
  }

  lemma OnePage(start: int)
    ensures ScannedFrom(start, 1) == if start == 1 then Down(100, 1) else Down(start + 99, start)
  {
    assert Down(start + 99, start) + [] == Down(start + 99, start);
  }

  lemma DownMembers(hi: int, lo: int, id: int)
    ensures id in Down(hi, lo) <==> lo <= id <= hi
  {
    if lo <= id <= hi { assert Down(hi, lo)[hi - id] == id; }
  }

  /** However many pages are allowed, the scan reads exactly the newest 100 ids for each of them. */
  lemma PagesCoverNewest(n: nat, pages: nat, id: int)
    requires pages >= 1
    ensures id in FullScan(ChainRpc(n), IdOf(), Latest, pages) <==> 1 <= id <= n && id > n - 100 * pages
  {
    hide FullScan, Earlier, ChainRpc, IdOf, PostsOf, PreviousPage, Down, ScannedFrom;
    LatestPage(n, pages);
    DownMembers(n, 1, id);
    DownMembers(n, n - 99, id);
    if n > 100 && pages > 1 {
      ScanFromPage(n, if n - 199 < 1 then 1 else n - 199, pages - 1);
      ScannedCovers(if n - 199 < 1 then 1 else n - 199, pages - 1, id);
    }
  }

  lemma LatestPage(n: nat, pages: nat)
    requires pages >= 1
    ensures FullScan(ChainRpc(n), IdOf(), Latest, pages) ==
      if n <= 100 then Down(n, 1)
      else if pages == 1 then Down(n, n - 99)
      else Down(n, n - 99) + FullScan(ChainRpc(n), IdOf(), At(if n - 199 < 1 then 1 else n - 199), pages - 1)
  {
    hide PostsOf, ChainRpc, IdOf;
    WindowPosts(n, Latest);
    ScanStep(ChainRpc(n), IdOf(), Latest, pages);
    var txs := ChainRpc(n)(Latest).value;
    if txs != [] { EarlierStep(ChainRpc(n), IdOf(), txs, Latest, pages - 1); }
  }

  /** So getHivePosts looks at the newest 500 transactions, and a getRepliesTo whose targets are never
      all answered at the newest 1000. */
  lemma RepliesReachBack(n: nat, id: int)
    ensures id in FullScan(ChainRpc(n), IdOf(), Latest, MAX_REPLY_PAGES) <==> 1 <= id <= n && id > n - 1000
  {
    hide FullScan;
    PagesCoverNewest(n, MAX_REPLY_PAGES, id);
  }

  lemma UnansweredReadsAll<C, P>(rpc: Rpc<C>, decode: RawTx<C> -> Option<Reply<P>>, targets: set<string>, k: nat)
    requires k <= 10 && forall m :: k <= m < 10 && m >= 2 ==> Targets(FullScan(rpc, decode, Latest, m)) != targets
    ensures PagesRead(rpc, decode, targets, k) == 10
    decreases 10 - k
  {
    if k < 10 { UnansweredReadsAll(rpc, decode, targets, k + 1); }
  }
}
