/** Who releases what: the allocation and clean-up paths of both backends and of the two
    `run_case` functions, for every choice of the calls that fail.

    A ledger hands out numbers for everything that must be released (contexts, SSL objects,
    BIOs, buffers). Releasing requires that the number is still live and numbers are never
    handed out twice, so a double release would not verify; a leak shows in the books. */
module Lifecycle {
  import opened Prelude

  type Handle = Option<nat>

  /** What is live, and which SSL object a BIO was passed to and is released with. */
  datatype Books = Books(live: set<nat>, owner: map<nat, nat>) {
    ghost predicate Sound() {
      forall id :: id in owner ==> id in live && owner[id] in live && owner[id] !in owner
    }

    /** A handle that may be released: null, or live and not owned by another. */
    predicate Releasable(h: Handle) {
      h.Some? ==> h.value in live && h.value !in owner
    }

    /** These and what belongs to them. */
    function Family(ids: set<nat>): set<nat> {
      ids + set b | b in owner && owner[b] in ids
    }

    function Without(ids: set<nat>): Books {
      Books(live - Family(ids), owner - Family(ids))
    }
  }

  function Ids(hs: seq<Handle>): set<nat> { set i | 0 <= i < |hs| && hs[i].Some? :: hs[i].value }

  /** Handles that can be released one after the other. */
  ghost predicate Holds(books: Books, hs: seq<Handle>) {
    && (forall i :: 0 <= i < |hs| ==> books.Releasable(hs[i]))
    && (forall i, j :: 0 <= i < j < |hs| && hs[i].Some? ==> hs[i] != hs[j])
  }

  /** The books show hs, and what belongs to them, on top of what they showed before. */
  ghost predicate Extends(now: Books, hs: seq<Handle>, before: Books) {
    now.Sound() && Holds(now, hs) && now.Without(Ids(hs)) == before
  }

  lemma IdsConcat(a: seq<Handle>, b: seq<Handle>)
    ensures Ids(a + b) == Ids(a) + Ids(b)
  {
    var all := a + b;
    forall id | id in Ids(a) + Ids(b)
      ensures id in Ids(all)
    {
      if id in Ids(a) {
        var i :| 0 <= i < |a| && a[i] == Some(id);
        assert all[i] == Some(id);
      } else {
        var i :| 0 <= i < |b| && b[i] == Some(id);
        assert all[|a| + i] == Some(id);
      }
    }
  }

  lemma IdsOne(h: Handle)
    ensures Ids([h]) == if h.Some? then {h.value} else {}
  {
    assert h.Some? ==> [h][0] == h;
  }

  lemma NothingHeld(now: Books, before: Books)
    requires Extends(now, [None], before)
    ensures now == before
  {
    IdsOne(None);
  }

  /** The order in which handles are released does not matter. */
  lemma ExtendsSwapped(now: Books, a: seq<Handle>, b: seq<Handle>, before: Books)
    requires Extends(now, a + b, before)
    ensures Extends(now, b + a, before)
  {
    IdsConcat(a, b);
    IdsConcat(b, a);
    var ab, ba := a + b, b + a;
    forall i | 0 <= i < |ba|
      ensures now.Releasable(ba[i])
    {
      assert ba[i] == if i < |b| then ab[|a| + i] else ab[i - |b|];
    }
    forall i, j | 0 <= i < j < |ba| && ba[i].Some?
      ensures ba[i] != ba[j]
    {
      assert ba[i] == if i < |b| then ab[|a| + i] else ab[i - |b|];
      assert ba[j] == if j < |b| then ab[|a| + j] else ab[j - |b|];
    }
  }

  /** What is held on top of what is held is held together. */
  lemma ExtendsTwice(now: Books, a: seq<Handle>, middle: Books, b: seq<Handle>, before: Books)
    requires Extends(now, a, middle) && Extends(middle, b, before)
    ensures Extends(now, a + b, before)
  {
    IdsConcat(a, b);
    var ab := a + b;
    forall i | 0 <= i < |ab|
      ensures now.Releasable(ab[i])
    {
      if i >= |a| {
        assert middle.Releasable(b[i - |a|]);
      }
    }
    forall i, j | 0 <= i < j < |ab| && ab[i].Some?
      ensures ab[i] != ab[j]
    {
      if i < |a| <= j {
        assert ab[i].value in Ids(a);
        assert middle.Releasable(b[j - |a|]) && middle.live !! Ids(a);
      }
    }
  }

  /** succeeds(i) decides the i-th request, be it for memory or any other library call. */
  class Ledger {
    const succeeds: nat -> bool
    var requests: nat
    var next: nat
    var books: Books

    constructor (succeeds: nat -> bool)
      ensures Valid() && books == Books({}, map[])
    {
      this.succeeds, requests, next, books := succeeds, 0, 0, Books({}, map[]);
    }

    /** Numbers from `next` on were never handed out. */
    ghost predicate Valid()
      reads this
    {
      books.Sound() && forall id :: id in books.live ==> id < next
    }

    /** None of the requests made between two moments failed. */
    ghost predicate Worked(from: nat, to: nat) { forall i :: from <= i < to ==> succeeds(i) }

    method Request() returns (ok: bool)
      modifies this`requests
      ensures requests == old(requests) + 1 && (ok <==> succeeds(old(requests)))
    {
      ok := succeeds(requests);
      requests := requests + 1;
    }

    method Obtain() returns (h: Handle)
      requires Valid()
      modifies this
      ensures Valid() && Extends(books, [h], old(books)) && books.owner == old(books).owner
      ensures requests == old(requests) + 1 && (h.Some? <==> succeeds(old(requests)))
    {
      var ok := Request();
      IdsOne(if ok then Some(next) else None);
      if !ok {
        return None;
      }
      h := Some(next);
      books := books.(live := books.live + {next});
      next := next + 1;
    }

    /** `free`, `SSL_CTX_free`, `BIO_free`, `EVP_CIPHER_CTX_free` and, with what it owns, `SSL_free`. */
    method Release(h: Handle)
      requires Valid() && books.Releasable(h)
      modifies this`books
      ensures Valid() && books == old(books).Without(Ids([h]))
    {
      IdsOne(h);
      if h.Some? {
        books := books.Without({h.value});
      }
    }

    /** `SSL_set_bio` */
    method Attach(bio: nat, ssl: nat)
      requires Valid() && bio in books.live && ssl in books.live && bio != ssl
      requires bio !in books.owner && ssl !in books.owner && bio !in books.owner.Values
      modifies this`books
      ensures Valid() && books == old(books).(owner := old(books).owner[bio := ssl])
    {
      books := books.(owner := books.owner[bio := ssl]);
    }
  }

  /** Obtain one more thing on top of hs. */
  method ObtainNext(ledger: Ledger, ghost hs: seq<Handle>, ghost before: Books) returns (h: Handle, ghost hs': seq<Handle>)
    requires ledger.Valid() && Extends(ledger.books, hs, before)
    modifies ledger
    ensures ledger.Valid() && hs' == hs + [h] && Extends(ledger.books, hs', before)
    ensures ledger.books.owner == old(ledger.books).owner
    ensures ledger.requests == old(ledger.requests) + 1 && (h.Some? <==> ledger.succeeds(old(ledger.requests)))
  {
    ghost var middle := ledger.books;
    h := ledger.Obtain();
    hs' := hs + [h];
    ExtendsTwice(ledger.books, [h], middle, hs, before);
    ExtendsSwapped(ledger.books, [h], hs, before);
  }

  lemma OneReleased(start: Books, now: Books, hs: seq<Handle>, n: nat)
    requires n < |hs| && now == start.Without(Ids(hs[..n])) && Holds(now, hs[n..])
    ensures now.Releasable(hs[n])
    ensures now.Without(Ids([hs[n]])) == start.Without(Ids(hs[..n + 1]))
    ensures Holds(now.Without(Ids([hs[n]])), hs[n + 1..])
  {
    assert hs[n] == hs[n..][0] && hs[n + 1..] == hs[n..][1..];
    assert hs[..n + 1] == hs[..n] + [hs[n]];
    IdsConcat(hs[..n], [hs[n]]);
    IdsOne(hs[n]);
  }

  /** The calls of a destroy function, one after the other. */
  method ReleaseEach(ledger: Ledger, hs: seq<Handle>)
    requires ledger.Valid() && Holds(ledger.books, hs)
    modifies ledger`books
    ensures ledger.Valid() && ledger.books == old(ledger.books).Without(Ids(hs))
  {
    assert hs[..0] == [] && hs[0..] == hs && Ids([]) == {};
    hide Holds, Ids;
    var n := 0;
    while n < |hs|
      invariant n <= |hs| && ledger.Valid()
      invariant ledger.books == old(ledger.books).Without(Ids(hs[..n]))
      invariant Holds(ledger.books, hs[n..])
    {
      OneReleased(old(ledger.books), ledger.books, hs, n);
      ledger.Release(hs[n]);
      n := n + 1;
    }
    assert hs[..n] == hs;
  }

  /** The same for everything obtained since `before`. */
  method ReleaseHeld(ledger: Ledger, hs: seq<Handle>, ghost before: Books)
    requires ledger.Valid() && Extends(ledger.books, hs, before)
    modifies ledger`books
    ensures ledger.Valid() && ledger.books == before
  {
    ReleaseEach(ledger, hs);
  }

  /** Some library calls in a row, stopping at the first that fails. */
  method RequestMany(ledger: Ledger, n: nat) returns (ok: bool)
    modifies ledger`requests
    ensures ok <==> ledger.Worked(old(ledger.requests), ledger.requests)
    ensures ledger.requests >= old(ledger.requests) && (ok ==> ledger.requests == old(ledger.requests) + n)
  {
    for i := 0 to n
      invariant ledger.requests == old(ledger.requests) + i && ledger.Worked(old(ledger.requests), ledger.requests)
    {
      ok := ledger.Request();
      if !ok {
        return false;
      }
    }
    return true;
  }

  // ----- the AEAD backend

  datatype AeadState = AeadState(self: Handle, ctx: Handle, aad: Handle, plaintext: Handle, ciphertext: Handle, output: Handle)

  /** In the order of `ofb_backend_destroy`. */
  function AeadHandles(s: AeadState): seq<Handle> { [s.ctx, s.aad, s.plaintext, s.ciphertext, s.output, s.self] }

  /** `encrypt_once` and `decrypt_once`: the context is freed on every path. */
  method WithContext(ledger: Ledger) returns (ok: bool)
    requires ledger.Valid()
    modifies ledger
    ensures ledger.Valid() && ledger.books == old(ledger.books)
    ensures ok <==> ledger.Worked(old(ledger.requests), ledger.requests)
    ensures ledger.requests >= old(ledger.requests) && (ok ==> ledger.requests == old(ledger.requests) + 8)
  {
    var ctx := ledger.Obtain();
    ok := false;
    if ctx.Some? {
      ok := RequestMany(ledger, 7);
    }
    assert [ctx][0] == ctx;
    ledger.Release(ctx);
  }

  /** `ofb_backend_create`: all six things or, on any failure, none of them. */
  method AeadCreate(ledger: Ledger, inRange: bool, known: bool) returns (state: Option<AeadState>)
    requires ledger.Valid()
    modifies ledger
    ensures ledger.Valid()
    ensures state.Some? ==> Extends(ledger.books, AeadHandles(state.value), old(ledger.books))
    ensures state.Some? ==> None !in AeadHandles(state.value)
    ensures state.Some? <==> inRange && known && ledger.Worked(old(ledger.requests), ledger.requests)
    ensures ledger.requests >= old(ledger.requests) && (state.Some? ==> ledger.requests == old(ledger.requests) + 14)
    ensures state.None? ==> ledger.books == old(ledger.books)
  {
    hide Extends, Holds, Ids;
    ghost var before := ledger.books;
    if !inRange {
      return None;
    }
    var self := ledger.Obtain();
    if self.None? {
      NothingHeld(ledger.books, before);
      return None;
    }
    var s := AeadBuffers(ledger, self, before);
    if !known || s.ctx.None? || s.aad.None? || s.plaintext.None? || s.ciphertext.None? || s.output.None? {
      ReleaseHeld(ledger, AeadHandles(s), before);
      return None;
    }
    var ok := WithContext(ledger);
    if !ok {
      ReleaseHeld(ledger, AeadHandles(s), before);
      return None;
    }
    return Some(s);
  }

  /** The context and the buffers, obtained in a row whichever of them fails. */
  method AeadBuffers(ledger: Ledger, self: Handle, ghost before: Books) returns (s: AeadState)
    requires ledger.Valid() && Extends(ledger.books, [self], before)
    modifies ledger
    ensures ledger.Valid() && Extends(ledger.books, AeadHandles(s), before) && s.self == self
    ensures ledger.requests == old(ledger.requests) + 5
    ensures ledger.Worked(old(ledger.requests), ledger.requests) <==>
            s.ctx.Some? && s.aad.Some? && s.plaintext.Some? && s.ciphertext.Some? && s.output.Some?
  {
    hide Extends, Holds, Ids;
    var ctx, aad, plaintext, ciphertext, output;
    ghost var hs := [self];
    ctx, hs := ObtainNext(ledger, hs, before);
    aad, hs := ObtainNext(ledger, hs, before);
    plaintext, hs := ObtainNext(ledger, hs, before);
    ciphertext, hs := ObtainNext(ledger, hs, before);
    output, hs := ObtainNext(ledger, hs, before);
    s := AeadState(self, ctx, aad, plaintext, ciphertext, output);
    assert hs == [self] + [ctx, aad, plaintext, ciphertext, output];
    ExtendsSwapped(ledger.books, [self], [ctx, aad, plaintext, ciphertext, output], before);
    assert AeadHandles(s) == [ctx, aad, plaintext, ciphertext, output] + [self];
  }

  method AeadVerify(ledger: Ledger) returns (ok: bool)
    requires ledger.Valid()
    modifies ledger
    ensures ledger.Valid() && ledger.books == old(ledger.books)
    ensures ok <==> ledger.Worked(old(ledger.requests), ledger.requests)
    ensures ledger.requests >= old(ledger.requests) && (ok ==> ledger.requests == old(ledger.requests) + 16)
  {
    ok := WithContext(ledger);
    if ok {
      ok := WithContext(ledger);
    }
  }

  /** The calls that iterations of `each` calls make. */
  function Calls(iterations: nat, each: nat): nat { iterations * each }

  lemma MoreCalls(n: nat, more: nat, each: nat)
    ensures Calls(0, each) == 0 && Calls(1, each) == each && Calls(n + more, each) == Calls(n, each) + Calls(more, each)
  {
  }

  function Total(calls: seq<nat>): nat { if calls == [] then 0 else Total(calls[..|calls| - 1]) + calls[|calls| - 1] }

  /** `run_case` of src/main.c; calibration and the samples are batches of library calls. It
      reports success if and only if none of its calls failed, and makes all of them then: 14
      for the backend, 16 for the verification, and the batches. */
  method AeadRunCase(ledger: Ledger, inRange: bool, known: bool, batches: seq<nat>) returns (ok: bool)
    requires ledger.Valid()
    modifies ledger
    ensures ledger.Valid() && ledger.books == old(ledger.books)
    ensures ok <==> inRange && known && ledger.Worked(old(ledger.requests), ledger.requests)
    ensures ok ==> ledger.requests == old(ledger.requests) + 14 + 16 + Total(batches)
  {
    hide Extends, Holds, Ids;
    ghost var before := ledger.books;
    var state := AeadCreate(ledger, inRange, known);
    if state.None? {
      return false;
    }
    ok := AeadVerify(ledger);
    if !ok {
      ReleaseHeld(ledger, AeadHandles(state.value), before);
      return false;
    }
    for i := 0 to |batches|
      invariant ledger.Valid() && Extends(ledger.books, AeadHandles(state.value), old(ledger.books))
      invariant ledger.Worked(old(ledger.requests), ledger.requests)
      invariant ledger.requests == old(ledger.requests) + 30 + Total(batches[..i])
    {
      assert batches[..i + 1][..i] == batches[..i];
      ok := RequestMany(ledger, batches[i]);
      if !ok {
        ReleaseHeld(ledger, AeadHandles(state.value), before);
        return false;
      }
    }
    assert batches[..|batches|] == batches;
    ReleaseHeld(ledger, AeadHandles(state.value), before);
    return true;
  }

  // ----- the TLS backend

  datatype Pair = Pair(client: Handle, server: Handle)

  const NO_PAIR: Pair := Pair(None, None)

  /** In the order of `tls_pair_destroy`. */
  function PairHandles(p: Pair): seq<Handle> { [p.client, p.server] }

  /** `tls_pair_destroy`: frees both sides with their BIOs and leaves null pointers. */
  method PairDestroy(ledger: Ledger, pair: Pair) returns (cleared: Pair)
    requires ledger.Valid() && Holds(ledger.books, PairHandles(pair))
    modifies ledger`books
    ensures ledger.Valid() && ledger.books == old(ledger.books).Without(Ids(PairHandles(pair)))
    ensures cleared == NO_PAIR
  {
    ReleaseEach(ledger, PairHandles(pair));
    return NO_PAIR;
  }

  /** `BIO_new_bio_pair`: both BIOs or neither. */
  method NewBioPair(ledger: Ledger) returns (client: Handle, server: Handle)
    requires ledger.Valid()
    modifies ledger
    ensures ledger.Valid() && (client.Some? <==> server.Some?)
    ensures ledger.books.owner == old(ledger.books).owner
    ensures client.None? ==> ledger.books == old(ledger.books)
    ensures ledger.requests == old(ledger.requests) + 1 && (client.Some? <==> ledger.succeeds(old(ledger.requests)))
    ensures client.Some? ==>
              && client != server
              && client.value !in old(ledger.books).live && server.value !in old(ledger.books).live
              && ledger.books.live == old(ledger.books).live + {client.value, server.value}
  {
    var ok := ledger.Request();
    if !ok {
      return None, None;
    }
    var n := ledger.next;
    ledger.next := n + 2;
    ledger.books := ledger.books.(live := ledger.books.live + {n, n + 1});
    return Some(n), Some(n + 1);
  }

  /** Both sides own a BIO, which is released with them. */
  ghost predicate OwnsBios(books: Books, pair: Pair) {
    pair.client.Some? && pair.server.Some? && pair.client.value in books.owner.Values && pair.server.value in books.owner.Values
  }

  /** Passing a new BIO to each side changes nothing but that the sides take them along. */
  lemma ExtendsWithBios(now: Books, pair: Pair, clientBio: nat, serverBio: nat, held: Books, before: Books)
    requires pair.client.Some? && pair.server.Some? && before.Sound()
    requires Extends(held, PairHandles(pair), before) && held.owner == before.owner && now.Sound()
    requires clientBio !in held.live && serverBio !in held.live && clientBio != serverBio
    requires now.live == held.live + {clientBio, serverBio}
    requires now.owner == held.owner[clientBio := pair.client.value][serverBio := pair.server.value]
    ensures Extends(now, PairHandles(pair), before) && OwnsBios(now, pair)
  {
    var ids := {pair.client.value, pair.server.value};
    IdsConcat([pair.client], [pair.server]);
    IdsOne(pair.client);
    IdsOne(pair.server);
    assert PairHandles(pair) == [pair.client] + [pair.server] && Ids(PairHandles(pair)) == ids;
    assert PairHandles(pair)[0] == pair.client && PairHandles(pair)[1] == pair.server;
    assert held.Family(ids) == ids;
    assert now.Family(ids) == ids + {clientBio, serverBio};
    assert now.owner[clientBio] == pair.client.value && now.owner[serverBio] == pair.server.value;
  }

  /** The BIO part of `tls_pair_create`: the sides own their BIOs as soon as there are any. */
  method ConnectPair(ledger: Ledger, pair: Pair, ghost before: Books) returns (ok: bool)
    requires pair.client.Some? && pair.server.Some? && before.Sound()
    requires ledger.Valid() && Extends(ledger.books, PairHandles(pair), before) && ledger.books.owner == before.owner
    modifies ledger
    ensures ledger.Valid() && Extends(ledger.books, PairHandles(pair), before)
    ensures ok ==> OwnsBios(ledger.books, pair)
    ensures ledger.requests == old(ledger.requests) + 1 && (ok <==> ledger.succeeds(old(ledger.requests)))
  {
    ghost var held := ledger.books;
    assert PairHandles(pair)[0] == pair.client && PairHandles(pair)[1] == pair.server;
    var clientBio, serverBio := NewBioPair(ledger);
    if clientBio.None? {
      return false;
    }
    ledger.Attach(clientBio.value, pair.client.value);
    ledger.Attach(serverBio.value, pair.server.value);
    ExtendsWithBios(ledger.books, pair, clientBio.value, serverBio.value, held, before);
    return true;
  }

  /** `tls_pair_create`: both sides with their BIOs or, on any failure, null pointers. The
      handshake makes `steps` library calls. */
  method PairCreate(ledger: Ledger, steps: nat) returns (pair: Pair)
    requires ledger.Valid()
    modifies ledger
    ensures ledger.Valid() && Extends(ledger.books, PairHandles(pair), old(ledger.books))
    ensures pair == NO_PAIR || OwnsBios(ledger.books, pair)
    ensures pair == NO_PAIR ==> ledger.books == old(ledger.books)
    ensures pair != NO_PAIR <==> ledger.Worked(old(ledger.requests), ledger.requests)
    ensures ledger.requests >= old(ledger.requests) && (pair != NO_PAIR ==> ledger.requests == old(ledger.requests) + 3 + steps)
  {
    hide Extends, Holds;
    ghost var before := ledger.books;
    var client := ledger.Obtain();
    ghost var hs := [client];
    var server;
    server, hs := ObtainNext(ledger, hs, before);
    pair := Pair(client, server);
    assert hs == PairHandles(pair);
    var ok := client.Some? && server.Some?;
    if ok {
      ok := ConnectPair(ledger, pair, before);
    }
    if ok {
      ok := RequestMany(ledger, steps);
    }
    if !ok {
      pair := DropPair(ledger, pair, before);
    }
  }

  method DropPair(ledger: Ledger, pair: Pair, ghost before: Books) returns (cleared: Pair)
    requires ledger.Valid() && Extends(ledger.books, PairHandles(pair), before)
    modifies ledger`books
    ensures ledger.Valid() && ledger.books == before && Extends(before, PairHandles(cleared), before)
    ensures cleared == NO_PAIR
  {
    cleared := PairDestroy(ledger, pair);
    NoPairExtends(before);
  }

  datatype TlsState = TlsState(self: Handle, clientCtx: Handle, serverCtx: Handle, plaintext: Handle, received: Handle, pair: Pair)

  function BufferHandles(s: TlsState): seq<Handle> { [s.clientCtx, s.serverCtx, s.plaintext, s.received, s.self] }

  /** In the order of `ofb_tls_backend_destroy`. */
  function TlsHandles(s: TlsState): seq<Handle> { PairHandles(s.pair) + BufferHandles(s) }

  /** `ofb_tls_backend_create`: everything or, on any failure, nothing. */
  method TlsCreate(ledger: Ledger, inRange: bool, transfer: bool, steps: nat) returns (state: Option<TlsState>)
    requires ledger.Valid()
    modifies ledger
    ensures ledger.Valid()
    ensures state.Some? ==> Extends(ledger.books, TlsHandles(state.value), old(ledger.books))
    ensures state.Some? ==> None !in BufferHandles(state.value) && (transfer <==> state.value.pair != NO_PAIR)
    ensures state.None? ==> ledger.books == old(ledger.books)
    ensures state.Some? <==> inRange && ledger.Worked(old(ledger.requests), ledger.requests)
    ensures ledger.requests >= old(ledger.requests)
    ensures state.Some? ==> ledger.requests == old(ledger.requests) + 14 + if transfer then 3 + steps else 0
  {
    hide Extends, Holds, Ids;
    ghost var before, start := ledger.books, ledger.requests;
    if !inRange {
      return None;
    }
    var self := ledger.Obtain();
    if self.None? {
      NothingHeld(ledger.books, before);
      return None;
    }
    var s := TlsBuffers(ledger, self, before);
    var ok := s.clientCtx.Some? && s.serverCtx.Some? && s.plaintext.Some? && s.received.Some?;
    if ok {
      ok := RequestMany(ledger, 9);
    }
    if !ok {
      ReleaseHeld(ledger, TlsHandles(s), before);
      return None;
    }
    if transfer {
      s := AddPair(ledger, s, steps, before);
      if s.pair == NO_PAIR {
        ReleaseHeld(ledger, TlsHandles(s), before);
        return None;
      }
    }
    return Some(s);
  }

  /** The contexts and the buffers, obtained in a row whichever of them fails. */
  method TlsBuffers(ledger: Ledger, self: Handle, ghost before: Books) returns (s: TlsState)
    requires ledger.Valid() && Extends(ledger.books, [self], before)
    modifies ledger
    ensures ledger.Valid() && s.self == self && s.pair == NO_PAIR
    ensures Extends(ledger.books, BufferHandles(s), before) && Extends(ledger.books, TlsHandles(s), before)
    ensures ledger.requests == old(ledger.requests) + 4
    ensures ledger.Worked(old(ledger.requests), ledger.requests) <==>
            s.clientCtx.Some? && s.serverCtx.Some? && s.plaintext.Some? && s.received.Some?
  {
    var clientCtx, serverCtx, plaintext, received;
    ghost var hs := [self];
    clientCtx, hs := ObtainNext(ledger, hs, before);
    serverCtx, hs := ObtainNext(ledger, hs, before);
    plaintext, hs := ObtainNext(ledger, hs, before);
    received, hs := ObtainNext(ledger, hs, before);
    assert ledger.books.Sound();
    hide Extends, Holds, Ids;
    s := TlsState(self, clientCtx, serverCtx, plaintext, received, NO_PAIR);
    assert hs == [self] + [clientCtx, serverCtx, plaintext, received];
    ExtendsSwapped(ledger.books, [self], [clientCtx, serverCtx, plaintext, received], before);
    assert BufferHandles(s) == [clientCtx, serverCtx, plaintext, received] + [self];
    NoPairExtends(ledger.books);
    ExtendsTwice(ledger.books, PairHandles(NO_PAIR), ledger.books, BufferHandles(s), before);
  }

  /** The pair that a transfer backend keeps. */
  method AddPair(ledger: Ledger, s: TlsState, steps: nat, ghost before: Books) returns (s': TlsState)
    requires ledger.Valid() && Extends(ledger.books, BufferHandles(s), before)
    modifies ledger
    ensures ledger.Valid() && Extends(ledger.books, TlsHandles(s'), before)
    ensures s' == s.(pair := s'.pair)
    ensures s'.pair != NO_PAIR <==> ledger.Worked(old(ledger.requests), ledger.requests)
    ensures ledger.requests >= old(ledger.requests)
    ensures s'.pair != NO_PAIR ==> ledger.requests == old(ledger.requests) + 3 + steps
  {
    hide Extends, Holds, Ids;
    ghost var middle := ledger.books;
    var pair := PairCreate(ledger, steps);
    s' := s.(pair := pair);
    ExtendsTwice(ledger.books, PairHandles(pair), middle, BufferHandles(s), before);
  }

  lemma NoPairExtends(books: Books)
    requires books.Sound()
    ensures Extends(books, PairHandles(NO_PAIR), books)
  {
    assert Ids(PairHandles(NO_PAIR)) == {};
  }

  /** One handshake of the handshake benchmark: the pair lives for one iteration. */
  method TlsHandshakeOnce(ledger: Ledger, steps: nat, checks: nat) returns (ok: bool)
    requires ledger.Valid()
    modifies ledger
    ensures ledger.Valid() && ledger.books == old(ledger.books)
    ensures ok <==> ledger.Worked(old(ledger.requests), ledger.requests)
    ensures ledger.requests >= old(ledger.requests) && (ok ==> ledger.requests == old(ledger.requests) + 3 + steps + checks)
  {
    var pair := PairCreate(ledger, steps);
    if pair == NO_PAIR {
      return false;
    }
    ok := RequestMany(ledger, checks);
    pair := PairDestroy(ledger, pair);
  }

  method TlsRunBatch(ledger: Ledger, transfer: bool, iterations: nat, steps: nat) returns (ok: bool)
    requires ledger.Valid()
    modifies ledger
    ensures ledger.Valid() && ledger.books == old(ledger.books)
    ensures ok <==> ledger.Worked(old(ledger.requests), ledger.requests)
    ensures ledger.requests >= old(ledger.requests)
    ensures ok ==> ledger.requests == old(ledger.requests) + Calls(iterations, if transfer then steps else 3 + steps)
  {
    hide Calls;
    ghost var each := if transfer then steps else 3 + steps;
    MoreCalls(0, 0, each);
    ok := true;
    for i := 0 to iterations
      invariant ok && ledger.Valid() && ledger.books == old(ledger.books)
      invariant ledger.Worked(old(ledger.requests), ledger.requests)
      invariant ledger.requests == old(ledger.requests) + Calls(i, each)
    {
      MoreCalls(i, 1, each);
      if transfer {
        ok := RequestMany(ledger, steps);
      } else {
        ok := TlsHandshakeOnce(ledger, steps, 0);
      }
      if !ok {
        return false;
      }
    }
  }

  /** `run_case` of src/tls_main.c, which reports success if and only if none of its calls failed,
      and then made all of them: for the backend, the verification, and every iteration. */
  method TlsRunCase(ledger: Ledger, inRange: bool, transfer: bool, steps: nat, batches: seq<nat>) returns (ok: bool)
    requires ledger.Valid()
    modifies ledger
    ensures ledger.Valid() && ledger.books == old(ledger.books)
    ensures ok <==> inRange && ledger.Worked(old(ledger.requests), ledger.requests)
    ensures ok ==> ledger.requests == old(ledger.requests)
                   + (if transfer then 17 + 2 * steps else 21 + steps)
                   + Calls(Total(batches), if transfer then steps else 3 + steps)
  {
    hide Extends, Holds, Ids, Calls;
    ghost var before := ledger.books;
    var state := TlsCreate(ledger, inRange, transfer, steps);
    if state.None? {
      return false;
    }
    if transfer {
      ok := RequestMany(ledger, steps);
    } else {
      ok := TlsHandshakeOnce(ledger, steps, 4);
    }
    if !ok {
      ReleaseHeld(ledger, TlsHandles(state.value), before);
      return false;
    }
    ghost var start, each := ledger.requests, if transfer then steps else 3 + steps;
    MoreCalls(0, 0, each);
    for i := 0 to |batches|
      invariant ledger.Valid() && Extends(ledger.books, TlsHandles(state.value), old(ledger.books))
      invariant ledger.Worked(old(ledger.requests), ledger.requests)
      invariant ledger.requests == start + Calls(Total(batches[..i]), each)
    {
      MoreCalls(Total(batches[..i]), batches[i], each);
      assert batches[..i + 1][..i] == batches[..i];
      ok := TlsRunBatch(ledger, transfer, batches[i], steps);
      if !ok {
        ReleaseHeld(ledger, TlsHandles(state.value), before);
        return false;
      }
    }
    assert batches[..|batches|] == batches;
    ReleaseHeld(ledger, TlsHandles(state.value), before);
    return true;
  }
}
