/** Page cursors over an inventory, authenticated under a ring of an active and a fallback key
    (crates/center-adapter-cloudflare/src/lib.rs, `decode_cursor` and `paginate`). HMACs, hashes and
    their encodings are taken as injective: a token is the cursor together with the key that signed it. */
module Cursors {
  import opened Basics

  const CURSOR_VERSION := 4
  const MAX_CURSOR_TTL_SECS := 3_600
  const MAX_CURSOR_CLOCK_SKEW_SECS := 300
  const MAX_INVENTORY_TAG_BYTES := 64 * 1024 * 1024

  datatype Ring = Ring(active: string, fallback: Option<string>, ttl: nat, skew: nat)

  /** What `CloudflareCursorKeyRing::with_clock` insists on. */
  predicate ValidRing(ring: Ring) {
    && 0 < ring.ttl <= MAX_CURSOR_TTL_SECS
    && ring.skew <= MAX_CURSOR_CLOCK_SKEW_SECS && ring.skew < ring.ttl
    && ring.fallback != Some(ring.active)
  }

  datatype ScopeTag = ScopeTag(scope: string, key: string)

  datatype InventoryTag<+T> = NoTag | InventoryTag(items: seq<T>, key: string)

  datatype Cursor<+T> = Cursor(
    version: nat, scope: ScopeTag, offset: nat, limit: nat, tag: InventoryTag<T>, issued: nat, expires: nat)

  datatype Token<+T> = Garbled | Signed(cursor: Cursor<T>, key: string)

  datatype Verified<+T> = Verified(cursor: Cursor<T>, byFallback: bool)

  datatype Page<+T> = Page(items: seq<T>, next: Option<Token<T>>)

  datatype Refusal =
    | Malformed | BadSignature | BadVersion | ScopeMismatch | LimitMismatch | BadOffset
    | BadTime | NotYetValid | Expired
    | InventoryTooLarge | InventoryChanged | EncodingFailed

  /** `validate_cursor_time`, with its checked 64-bit additions. */
  function TimeRefusal<T>(c: Cursor<T>, ring: Ring, now: nat): Option<Refusal> {
    if c.expires < c.issued then Some(BadTime)
    else if c.expires - c.issued == 0 || c.expires - c.issued > ring.ttl then Some(BadTime)
    else if now + ring.skew > U64_MAX then Some(BadTime)
    else if c.issued > now + ring.skew then Some(NotYetValid)
    else if c.expires + ring.skew > U64_MAX then Some(BadTime)
    else if now > c.expires + ring.skew then Some(Expired)
    else None
  }

  /** `decode_cursor`. */
  function Decode<T>(limit: nat, token: Option<Token<T>>, ring: Ring, now: nat,
                     scope: string): Result<Option<Verified<T>>, Refusal> {
    if token.None? then Ok(None)
    else if token.value.Garbled? then Err(Malformed)
    else if token.value.key != ring.active && Some(token.value.key) != ring.fallback then Err(BadSignature)
    else
      var c, key := token.value.cursor, token.value.key;
      if c.version != CURSOR_VERSION then Err(BadVersion)
      else if c.scope != ScopeTag(scope, key) then Err(ScopeMismatch)
      else if c.limit != limit then Err(LimitMismatch)
      else if c.offset == 0 || c.tag.NoTag? then Err(BadOffset)
      else if TimeRefusal(c, ring, now).Some? then Err(TimeRefusal(c, ring, now).value)
      else Ok(Some(Verified(c, key != ring.active)))
  }

  /** `paginate`; `bytes` is the size of the items as encoded for the tag. */
  function Paginate<T(==)>(items: seq<T>, bytes: nat, limit: nat, scope: string, ring: Ring,
                      cursor: Option<Verified<T>>, now: nat): Result<Page<T>, Refusal> {
    if cursor.Some? && cursor.value.byFallback && ring.fallback.None? then Err(ScopeMismatch)
    else
      var key := if cursor.Some? && cursor.value.byFallback then ring.fallback.value else ring.active;
      if bytes > MAX_INVENTORY_TAG_BYTES then Err(InventoryTooLarge)
      else if cursor.Some? && cursor.value.cursor.tag != InventoryTag(items, key) then Err(InventoryChanged)
      else
        var offset := if cursor.Some? then cursor.value.cursor.offset else 0;
        if offset > |items| || offset + limit > U64_MAX then Err(BadOffset)
        else
          var end := if offset + limit <= |items| then offset + limit else |items|;
          if end == |items| then Ok(Page(items[offset..end], None))
          else if now + ring.ttl > U64_MAX then Err(EncodingFailed)
          else
            var next := Cursor(CURSOR_VERSION, ScopeTag(scope, ring.active), end, limit,
                               InventoryTag(items, ring.active), now, now + ring.ttl);
            Ok(Page(items[offset..end], Some(Signed(next, ring.active))))
  }

  /** One request: the inventory (and its encoded size), key ring and clock that served it. */
  datatype Serve<+T> = Serve(items: seq<T>, bytes: nat, ring: Ring, now: nat)

  function Answer<T(==)>(s: Serve<T>, limit: nat, scope: string, token: Option<Token<T>>): Result<Page<T>, Refusal> {
    var cursor := Decode(limit, token, s.ring, s.now, scope);
    if cursor.Err? then Err(cursor.error)
    else Paginate(s.items, s.bytes, limit, scope, s.ring, cursor.value, s.now)
  }

  /** A client that follows cursors: each request carries the token of the page before it. Inventory,
      ring and clock may be different every time. */
  ghost predicate IsCrawl<T>(limit: nat, scope: string, serves: seq<Serve<T>>, pages: seq<Page<T>>) {
    && 0 < |serves| == |pages|
    && Answer(serves[0], limit, scope, None) == Ok(pages[0])
    && (forall j :: 0 < j < |serves| ==> Follows(limit, scope, pages[j - 1], serves[j], pages[j]))
  }

  ghost predicate Follows<T>(limit: nat, scope: string, before: Page<T>, s: Serve<T>, page: Page<T>) {
    before.next.Some? && Answer(s, limit, scope, before.next) == Ok(page)
  }

  ghost function Listed<T>(pages: seq<Page<T>>): seq<T> {
    if |pages| == 0 then [] else Listed(pages[..|pages| - 1]) + pages[|pages| - 1].items
  }

  /** The token that a page of `s` ending at `end` carries. */
  ghost function Issued<T>(s: Serve<T>, limit: nat, scope: string, end: nat): Token<T> {
    Signed(Cursor(CURSOR_VERSION, ScopeTag(scope, s.ring.active), end, limit,
                  InventoryTag(s.items, s.ring.active), s.now, s.now + s.ring.ttl),
           s.ring.active)
  }

  /** The keys and clocks that let a token issued by one serve be accepted by the next. */
  predicate HandsOver(from: Ring, at: nat, to: Ring, now: nat) {
    && (from.active == to.active || Some(from.active) == to.fallback)
    && from.ttl <= to.ttl
    && now + to.skew <= U64_MAX && at + from.ttl + to.skew <= U64_MAX
    && at <= now + to.skew
    && now <= at + from.ttl + to.skew
  }

  /** There is room to date the cursor of a further page. */
  predicate CanIssue(ring: Ring, now: nat) {
    now + ring.ttl <= U64_MAX
  }

  ghost predicate PageFrom<T>(s: Serve<T>, limit: nat, scope: string, offset: nat, page: Page<T>)
    requires offset <= |s.items|
  {
    if offset + limit < |s.items|
    then page == Page(s.items[offset..offset + limit], Some(Issued(s, limit, scope, offset + limit)))
    else page == Page(s.items[offset..], None)
  }

  /** The exact condition under which a request with an issued token is answered, and the answer. */
  lemma NextAnswer<T>(limit: nat, scope: string, s: Serve<T>, offset: nat, t: Serve<T>)
    requires 0 < limit && 0 < offset <= |s.items| && offset + limit <= U64_MAX && ValidRing(s.ring) && ValidRing(t.ring)
    ensures var r := Answer(t, limit, scope, Some(Issued(s, limit, scope, offset)));
      && (r.Ok? <==>
            && HandsOver(s.ring, s.now, t.ring, t.now)
            && t.items == s.items && t.bytes <= MAX_INVENTORY_TAG_BYTES
            && (offset + limit < |s.items| ==> CanIssue(t.ring, t.now)))
      && (r.Ok? ==> PageFrom(t, limit, scope, offset, r.value))
  {
    var c := Issued(s, limit, scope, offset).cursor;
    assert TimeRefusal(c, t.ring, t.now).None? <==>
      && s.ring.ttl <= t.ring.ttl
      && t.now + t.ring.skew <= U64_MAX && s.now + s.ring.ttl + t.ring.skew <= U64_MAX
      && s.now <= t.now + t.ring.skew
      && t.now <= s.now + s.ring.ttl + t.ring.skew;
  }

  /** The serve that would have issued a cursor, with the key it is signed under. */
  ghost function IssuerOf<T>(c: Cursor<T>, key: string): Serve<T>
    requires c.tag.InventoryTag? && c.expires >= c.issued
  {
    Serve(c.tag.items, 0, Ring(key, None, c.expires - c.issued, 0), c.issued)
  }

  /** Any token at all: it is answered only if it is one that a serve under one of the two keys issued for
      that very scope and page size and for the inventory as it still is. */
  lemma AnsweredWasIssued<T>(limit: nat, scope: string, t: Serve<T>, token: Token<T>)
    requires Answer(t, limit, scope, Some(token)).Ok?
    ensures token.Signed? && (token.key == t.ring.active || Some(token.key) == t.ring.fallback)
    ensures var c := token.cursor;
      && c.tag.InventoryTag? && c.issued < c.expires && c.expires - c.issued <= t.ring.ttl && 0 < c.offset <= |t.items|
      && c.tag.items == t.items
      && token == Issued(IssuerOf(c, token.key), limit, scope, c.offset)
  {
  }

  /** And a token issued for another scope or page size is not answered, whatever keys and clocks. */
  lemma ForeignCursorRefused<T>(
      limit: nat, scope: string, s: Serve<T>, offset: nat, t: Serve<T>, size: nat, where: string)
    requires limit != size || scope != where
    ensures Answer(t, limit, scope, Some(Issued(s, size, where, offset))).Err?
  {
  }

  /** The exact condition, for any token and any ring: it was issued under a key of the ring for this scope,
      page size and inventory, with a lifetime the ring allows, and the clocks agree. */
  lemma AnsweredExactlyWhen<T>(limit: nat, scope: string, t: Serve<T>, token: Token<T>)
    requires 0 < limit && |t.items| + limit <= U64_MAX && ValidRing(t.ring)
    ensures Answer(t, limit, scope, Some(token)).Ok? <==>
      && token.Signed? && token.cursor.tag.InventoryTag? && token.cursor.issued < token.cursor.expires
      && 0 < token.cursor.offset <= |t.items|
      && var s := IssuerOf(token.cursor, token.key);
      && token == Issued(s, limit, scope, token.cursor.offset)
      && HandsOver(s.ring, s.now, t.ring, t.now)
      && t.items == s.items && t.bytes <= MAX_INVENTORY_TAG_BYTES
      && (token.cursor.offset + limit < |t.items| ==> CanIssue(t.ring, t.now))
  {
  }

  /** Why an issued cursor is refused: its key is gone, its scope or page size is another, the clocks disagree, or
      the inventory has changed. */
  lemma RefusedBecause<T>(limit: nat, scope: string, s: Serve<T>, offset: nat, size: nat, where: string, t: Serve<T>)
    requires ValidRing(s.ring) && 0 < offset && t.now + t.ring.skew <= U64_MAX
    requires s.ring.ttl <= t.ring.ttl && s.now + s.ring.ttl + t.ring.skew <= U64_MAX
    ensures var r, known := Answer(t, limit, scope, Some(Issued(s, size, where, offset))),
                  s.ring.active == t.ring.active || Some(s.ring.active) == t.ring.fallback;
      && (r == Err(BadSignature) <==> !known)
      && (known && where != scope ==> r == Err(ScopeMismatch))
      && (known && where == scope && size != limit ==> r == Err(LimitMismatch))
      && (known && where == scope && size == limit ==>
            && (r == Err(NotYetValid) <==> s.now > t.now + t.ring.skew)
            && (r == Err(Expired) <==> s.now <= t.now + t.ring.skew && t.now > s.now + s.ring.ttl + t.ring.skew)
            && (HandsOver(s.ring, s.now, t.ring, t.now) && t.bytes <= MAX_INVENTORY_TAG_BYTES ==>
                  (r == Err(InventoryChanged) <==> s.items != t.items)))
  {
  }

  lemma FirstAnswer<T>(limit: nat, scope: string, s: Serve<T>)
    requires 0 < limit <= U64_MAX
    ensures var r := Answer(s, limit, scope, None);
      && (r.Ok? <==> s.bytes <= MAX_INVENTORY_TAG_BYTES && (limit < |s.items| ==> CanIssue(s.ring, s.now)))
      && (r.Ok? ==> PageFrom(s, limit, scope, 0, r.value))
  {
  }

  /** What a crawl has done after pages for `end` items, whatever happened to the inventory, keys and
      clocks meanwhile. */
  ghost predicate SoFar<T>(limit: nat, scope: string, serves: seq<Serve<T>>, pages: seq<Page<T>>, end: nat)
    requires 0 < |serves| == |pages|
  {
    var items, last := serves[0].items, |pages| - 1;
    && (forall j :: 0 <= j < |serves| ==> serves[j].items == items)
    && (if end < |items| then
          && Listed(pages) == items[..end]
          && pages[last].next == Some(Issued(serves[last], limit, scope, end))
        else
          && Listed(pages) == items
          && pages[last].next.None?)
  }

  lemma CrawlPrefix<T>(limit: nat, scope: string, serves: seq<Serve<T>>, pages: seq<Page<T>>)
    requires IsCrawl(limit, scope, serves, pages) && |pages| > 1
    ensures IsCrawl(limit, scope, serves[..|pages| - 1], pages[..|pages| - 1])
  {
    var n := |pages| - 1;
    var ss, ps := serves[..n], pages[..n];
    forall j | 0 < j < n ensures Follows(limit, scope, ps[j - 1], ss[j], ps[j]) {
      assert Follows(limit, scope, pages[j - 1], serves[j], pages[j]);
    }
  }

  lemma Times(n: nat, limit: nat)
    requires n > 0
    ensures (n + 1) * limit == n * limit + limit && n * limit >= limit
  {
  }

  lemma {:induction false} CrawlSoFar<T>(limit: nat, scope: string, serves: seq<Serve<T>>, pages: seq<Page<T>>)
    requires 0 < limit && IsCrawl(limit, scope, serves, pages)
    requires forall j :: 0 <= j < |serves| ==> ValidRing(serves[j].ring)
    requires |serves[0].items| + limit <= U64_MAX
    ensures SoFar(limit, scope, serves, pages, |pages| * limit)
  {
    var n := |pages| - 1;
    if n == 0 {
      FirstAnswer(limit, scope, serves[0]);
      assert Listed(pages[..0]) == [];
      assert Listed(pages) == pages[0].items;
    } else {
      CrawlPrefix(limit, scope, serves, pages);
      CrawlSoFar(limit, scope, serves[..n], pages[..n]);
      Times(n, limit);
      assert Follows(limit, scope, pages[n - 1], serves[n], pages[n]);
      CrawlOneMore(limit, scope, serves, pages, n * limit);
    }
  }

  lemma CrawlOneMore<T>(limit: nat, scope: string, serves: seq<Serve<T>>, pages: seq<Page<T>>, end: nat)
    requires 0 < limit <= end && 1 < |serves| == |pages| && |serves[0].items| + limit <= U64_MAX
    requires ValidRing(serves[|serves| - 2].ring) && ValidRing(serves[|serves| - 1].ring)
    requires SoFar(limit, scope, serves[..|serves| - 1], pages[..|pages| - 1], end)
    requires Follows(limit, scope, pages[|pages| - 2], serves[|pages| - 1], pages[|pages| - 1])
    ensures SoFar(limit, scope, serves, pages, end + limit)
  {
    var n := |pages| - 1;
    var ss, ps, items := serves[..n], pages[..n], serves[0].items;
    assert ps[n - 1] == pages[n - 1] && ss[n - 1] == serves[n - 1] && ss[0] == serves[0];
    assert end < |items|;
    NextAnswer(limit, scope, serves[n - 1], end, serves[n]);
    assert forall j :: 0 <= j < n ==> ss[j] == serves[j];
    assert items[..end] + items[end..] == items;
    if end + limit < |items| {
      assert items[..end] + items[end..end + limit] == items[..end + limit];
    }
  }

  /** A completed crawl lists the inventory of its first request, every item once and in order, in
      exactly ceil(n / limit) pages, or one when there are no items; the inventory was the same at
      every request. */
  lemma CrawlListsInventory<T>(limit: nat, scope: string, serves: seq<Serve<T>>, pages: seq<Page<T>>)
    requires 0 < limit && IsCrawl(limit, scope, serves, pages)
    requires forall j :: 0 <= j < |serves| ==> ValidRing(serves[j].ring)
    requires |serves[0].items| + limit <= U64_MAX
    requires pages[|pages| - 1].next.None?
    ensures Listed(pages) == serves[0].items
    ensures forall j :: 0 <= j < |serves| ==> serves[j].items == serves[0].items
    ensures |serves[0].items| <= |pages| * limit
    ensures |pages| == 1 || (|pages| - 1) * limit < |serves[0].items|
  {
    CrawlSoFar(limit, scope, serves, pages);
    if |pages| > 1 {
      var n := |pages| - 1;
      CrawlPrefix(limit, scope, serves, pages);
      CrawlSoFar(limit, scope, serves[..n], pages[..n]);
      assert Follows(limit, scope, pages[n - 1], serves[n], pages[n]);
    }
  }

  /** A crawl that is not complete can go on exactly when the keys and clocks hand over and the
      inventory is unchanged: in particular when the active key has become the fallback. */
  lemma CrawlGoesOn<T>(limit: nat, scope: string, serves: seq<Serve<T>>, pages: seq<Page<T>>, t: Serve<T>)
    requires 0 < limit && IsCrawl(limit, scope, serves, pages) && ValidRing(t.ring)
    requires forall j :: 0 <= j < |serves| ==> ValidRing(serves[j].ring)
    requires |serves[0].items| + limit <= U64_MAX
    requires pages[|pages| - 1].next.Some?
    ensures Answer(t, limit, scope, pages[|pages| - 1].next).Ok? <==>
      var s := serves[|serves| - 1];
      && HandsOver(s.ring, s.now, t.ring, t.now)
      && t.items == serves[0].items && t.bytes <= MAX_INVENTORY_TAG_BYTES
      && ((|pages| + 1) * limit < |serves[0].items| ==> CanIssue(t.ring, t.now))
  {
    CrawlSoFar(limit, scope, serves, pages);
    var n := |pages|;
    Times(n, limit);
    NextAnswer(limit, scope, serves[n - 1], n * limit, t);
  }

  /** Rotation: the old active key kept as fallback, within lifetime plus skew, hands over. */
  lemma RotationHandsOver(from: Ring, at: nat, to: Ring, now: nat)
    requires ValidRing(from) && ValidRing(to) && to.fallback == Some(from.active) && to.ttl == from.ttl
    requires at <= now <= at + from.ttl + to.skew && now + to.ttl + to.skew <= U64_MAX
    ensures HandsOver(from, at, to, now)
  {
  }
}
