/** The helper's bounded, expiring store of used authorization nonces
    (agent/nethelper/authorization.go:61-150, agent/nethelper/store.go:57). */
module HelperNonces {
  import opened Base

  const MAX_NONCES := 4096
  const WINDOW := 900
  const MAX_INT64 := 0x7fff_ffff_ffff_ffff

  type Store = map<string, int>

  /** The parts of a signed authorization that decide freshness. `sound` stands for every
      other check: action, target host, matching parameters, approval and signature. */
  datatype Authorization = Authorization(nonce: string, expiresAt: int, sound: bool)

  predicate Accepts(store: Store, a: Authorization, now: int) {
    a.sound && |a.nonce| >= 16 && now <= a.expiresAt <= now + WINDOW && a.nonce !in store
  }

  function Live(store: Store, now: int): Store {
    map n | n in store && store[n] >= now :: store[n]
  }

  /** Which entry makes room: none below the limit; at the limit one that expires first. The
      choice between equals is the map iteration's, hence not determined. */
  predicate MayEvict(store: Store, now: int, evicted: Option<string>) {
    var live := Live(store, now);
    match evicted
    case None => |live| < MAX_NONCES || forall n | n in live :: live[n] >= MAX_INT64
    case Some(o) =>
      |live| >= MAX_NONCES && o in live && live[o] < MAX_INT64 && forall n | n in live :: live[o] <= live[n]
  }

  function Consume(store: Store, a: Authorization, now: int, evicted: Option<string>): Store {
    var live := Live(store, now);
    (if evicted.None? then live else live - {evicted.value})[a.nonce := a.expiresAt]
  }

  /** The pass over the map: expired entries go, the one expiring first is remembered. */
  method Sweep(store: Store, now: int) returns (after: Store, oldest: Option<string>)
    ensures after == Live(store, now)
    ensures oldest.Some? ==> oldest.value in after && after[oldest.value] < MAX_INT64
    ensures forall n | n in after :: if oldest.Some? then after[oldest.value] <= after[n] else MAX_INT64 <= after[n]
  {
    after := store;
    oldest := None;
    var oldestExpiry := MAX_INT64;
    ghost var live := Live(store, now);
    var pending := store.Keys;
    while pending != {}
      invariant pending <= store.Keys
      invariant after.Keys == live.Keys + pending
      invariant forall n | n in after :: after[n] == store[n]
      invariant if oldest.Some? then oldest.value in live && oldestExpiry == live[oldest.value] < MAX_INT64
                else oldestExpiry == MAX_INT64
      invariant forall n | n in live && n !in pending :: oldestExpiry <= live[n]
      decreases pending
    {
      var item :| item in pending;
      var expiry := store[item];
      if expiry < now {
        after := after - {item};
      } else if expiry < oldestExpiry {
        oldest, oldestExpiry := Some(item), expiry;
      }
      pending := pending - {item};
    }
  }

  method ConsumeNonce(store: Store, a: Authorization, now: int) returns (after: Store, evicted: Option<string>)
    ensures MayEvict(store, now, evicted)
    ensures after == Consume(store, a, now, evicted)
  {
    var oldestNonce;
    after, oldestNonce := Sweep(store, now);
    evicted := None;
    if |after| >= MAX_NONCES && oldestNonce.Some? {
      after := after - {oldestNonce.value};
      evicted := oldestNonce;
    }
    after := after[a.nonce := a.expiresAt];
  }

  // ---------------------------------------------------------------- bounded

  /** What the store always satisfies: it can be loaded again, and every expiry is one the
      acceptance window once allowed. */
  ghost predicate Bounded(store: Store, now: int) {
    |store| <= MAX_NONCES && forall n | n in store :: store[n] <= now + WINDOW
  }

  lemma ConsumeBounded(store: Store, a: Authorization, now: int, evicted: Option<string>)
    requires Bounded(store, now) && Accepts(store, a, now) && MayEvict(store, now, evicted)
    requires now + WINDOW < MAX_INT64
    ensures Bounded(Consume(store, a, now, evicted), now)
  {
    var live := Live(store, now);
    SubmapSize(live, store);
    if evicted.Some? {
      RemoveSize(live, evicted.value);
      InsertSize(live - {evicted.value}, a.nonce, a.expiresAt);
    } else {
      if n :| n in live {
        assert live[n] <= now + WINDOW < MAX_INT64;
      } else {
        assert live == map[];
      }
      InsertSize(live, a.nonce, a.expiresAt);
    }
  }

  lemma RemoveSize(s: Store, n: string)
    requires n in s
    ensures |s - {n}| == |s| - 1
  {
    assert (s - {n}).Keys == s.Keys - {n};
    assert |s - {n}| == |(s - {n}).Keys| && |s| == |s.Keys|;
  }

  lemma InsertSize(s: Store, n: string, expiry: int)
    ensures |s[n := expiry]| <= |s| + 1
  {
    assert s[n := expiry].Keys == s.Keys + {n};
    assert |s[n := expiry]| == |s[n := expiry].Keys| && |s| == |s.Keys|;
  }

  lemma SubmapSize(small: Store, big: Store)
    requires small.Keys <= big.Keys
    ensures |small| <= |big|
  {
    SubsetSize(small.Keys, big.Keys);
    assert |small| == |small.Keys| && |big| == |big.Keys|;
  }

  lemma {:induction false} SubsetSize(a: set<string>, b: set<string>)
    requires a <= b
    ensures |a| <= |b|
  {
    if x :| x in a {
      SubsetSize(a - {x}, b - {x});
    }
  }

  // ---------------------------------------------------------------- runs

  /** One committed use of an authorization. Operations that fail commit no nonce. */
  datatype Use = Use(a: Authorization, now: int, evicted: Option<string>)

  function After(uses: seq<Use>): Store {
    if uses == [] then map[]
    else
      var u := uses[|uses| - 1];
      Consume(After(uses[..|uses| - 1]), u.a, u.now, u.evicted)
  }

  /** A run of the helper between purges: the clock does not go back, every use was accepted,
      and every eviction was the helper's choice. */
  ghost predicate Run(uses: seq<Use>) {
    uses == [] ||
    var init, u := uses[..|uses| - 1], uses[|uses| - 1];
    && Run(init)
    && (init != [] ==> init[|init| - 1].now <= u.now)
    && u.now + WINDOW < MAX_INT64
    && Accepts(After(init), u.a, u.now)
    && MayEvict(After(init), u.now, u.evicted)
  }

  /** Some unexpired nonce with expiry at least `expiry` was evicted during the run. */
  ghost predicate EvictedFrom(uses: seq<Use>, expiry: int) {
    exists k :: 0 <= k < |uses| && uses[k].evicted.Some?
      && uses[k].evicted.value in After(uses[..k])
      && After(uses[..k])[uses[k].evicted.value] >= expiry
  }

  lemma {:induction false} StoreStaysBounded(uses: seq<Use>, now: int)
    requires Run(uses)
    requires uses != [] ==> uses[|uses| - 1].now <= now
    ensures Bounded(After(uses), now)
  {
    if uses != [] {
      var init, u := uses[..|uses| - 1], uses[|uses| - 1];
      StoreStaysBounded(init, u.now);
      ConsumeBounded(After(init), u.a, u.now, u.evicted);
    }
  }

  lemma EvictedFromLonger(uses: seq<Use>, u: Use, expiry: int)
    requires EvictedFrom(uses, expiry)
    ensures EvictedFrom(uses + [u], expiry)
  {
    var k :| 0 <= k < |uses| && uses[k].evicted.Some? && uses[k].evicted.value in After(uses[..k])
      && After(uses[..k])[uses[k].evicted.value] >= expiry;
    assert (uses + [u])[..k] == uses[..k] && (uses + [u])[k] == uses[k];
  }

  /** What becomes of a used nonce: it is still stored, or it has expired, or an unexpired
      nonce that expires no earlier was evicted. */
  lemma {:induction false} UsedNonceIsRemembered(uses: seq<Use>, i: nat, now: int)
    requires Run(uses) && i < |uses|
    requires uses[|uses| - 1].now <= now
    ensures || (uses[i].a.nonce in After(uses) && After(uses)[uses[i].a.nonce] == uses[i].a.expiresAt)
            || uses[i].a.expiresAt < now
            || EvictedFrom(uses, uses[i].a.expiresAt)
  {
    var init, u := uses[..|uses| - 1], uses[|uses| - 1];
    assert uses == init + [u];
    if i < |init| && uses[i].a.expiresAt >= now {
      UsedNonceIsRemembered(init, i, u.now);
      var nonce, expiry := uses[i].a.nonce, uses[i].a.expiresAt;
      if EvictedFrom(init, expiry) {
        EvictedFromLonger(init, u, expiry);
      } else {
        assert nonce in Live(After(init), u.now);
        if u.evicted == Some(nonce) {
          assert uses[..|init|] == init && uses[|init|] == u;
        }
      }
    }
  }

  /** Main result: an authorization that outlives every unexpired nonce evicted so far is
      never accepted a second time. */
  lemma NeverAcceptedTwice(uses: seq<Use>, i: nat, now: int)
    requires Run(uses) && i < |uses|
    requires uses[|uses| - 1].now <= now
    requires !EvictedFrom(uses, uses[i].a.expiresAt)
    ensures !Accepts(After(uses), uses[i].a, now)
  {
    UsedNonceIsRemembered(uses, i, now);
  }

  /** No use found the store full of unexpired nonces. */
  ghost predicate NeverFull(uses: seq<Use>) {
    forall k | 0 <= k < |uses| :: |Live(After(uses[..k]), uses[k].now)| < MAX_NONCES
  }

  /** While the store is never full nothing is forgotten at all. */
  lemma NothingForgottenBelowTheLimit(uses: seq<Use>, i: nat, now: int)
    requires Run(uses) && i < |uses| && NeverFull(uses)
    requires uses[|uses| - 1].now <= now
    ensures !Accepts(After(uses), uses[i].a, now)
  {
    NothingEvicted(uses);
    NeverAcceptedTwice(uses, i, now);
  }

  lemma NothingEvicted(uses: seq<Use>)
    requires Run(uses) && NeverFull(uses)
    ensures forall k | 0 <= k < |uses| :: uses[k].evicted.None?
  {
    forall k | 0 <= k < |uses|
      ensures uses[k].evicted.None?
    {
      RunPrefix(uses, k + 1);
      assert uses[..k + 1][..k] == uses[..k] && uses[..k + 1][k] == uses[k];
    }
  }

  /** Up to 4096 uses never fill the store. */
  lemma FewUsesNeverFill(uses: seq<Use>)
    requires |uses| <= MAX_NONCES
    ensures NeverFull(uses)
  {
    forall k | 0 <= k < |uses|
      ensures |Live(After(uses[..k]), uses[k].now)| < MAX_NONCES
    {
      AtMostOneEach(uses[..k]);
      SubmapSize(Live(After(uses[..k]), uses[k].now), After(uses[..k]));
    }
  }

  lemma {:induction false} RunPrefix(uses: seq<Use>, k: nat)
    requires Run(uses) && k <= |uses|
    ensures Run(uses[..k])
  {
    if k == |uses| {
      assert uses[..k] == uses;
    } else {
      var init := uses[..|uses| - 1];
      assert Run(init);
      assert init[..k] == uses[..k];
      RunPrefix(init, k);
    }
  }

  lemma {:induction false} AtMostOneEach(uses: seq<Use>)
    ensures |After(uses)| <= |uses|
  {
    if uses != [] {
      var init, u := uses[..|uses| - 1], uses[|uses| - 1];
      AtMostOneEach(init);
      var live := Live(After(init), u.now);
      var kept := if u.evicted.None? then live else live - {u.evicted.value};
      SubmapSize(kept, After(init));
      var after := kept[u.a.nonce := u.a.expiresAt];
      assert after.Keys == kept.Keys + {u.a.nonce};
      assert |after| == |after.Keys| && |kept| == |kept.Keys|;
    }
  }

  // ---------------------------------------------------------------- the store in plain terms

  /** The unexpired nonces of a store. */
  function Unexpired(store: Store, now: int): set<string> {
    set n | n in store && now <= store[n]
  }

  /** Main result: a use evicts a nonce if and only if 4096 unexpired ones are stored, the one it
      evicts expires no later than any other, and afterwards exactly the other unexpired nonces are
      stored, and the new one. */
  lemma UseKeepsAllButTheOldest(uses: seq<Use>, n: string)
    requires Run(uses) && uses != []
    ensures var before, u := After(uses[..|uses| - 1]), uses[|uses| - 1];
            && (u.evicted.Some? <==> |Unexpired(before, u.now)| >= 4096)
            && (u.evicted.Some? ==>
                  u.evicted.value in before && u.now <= before[u.evicted.value]
                  && (n in before && u.now <= before[n] ==> before[u.evicted.value] <= before[n]))
            && (n in After(uses) <==>
                  n == u.a.nonce || (n in before && u.now <= before[n] && u.evicted != Some(n)))
            && (n in After(uses) ==> After(uses)[n] == if n == u.a.nonce then u.a.expiresAt else before[n])
  {
    var before, u := After(uses[..|uses| - 1]), uses[|uses| - 1];
    StoreStaysBounded(uses[..|uses| - 1], u.now);
    EvictsTheOldest(before, u.now, u.evicted, n);
    ConsumeKeeps(before, u.a, u.now, u.evicted, n);
  }

  lemma EvictsTheOldest(store: Store, now: int, evicted: Option<string>, n: string)
    requires Bounded(store, now) && now + WINDOW < MAX_INT64 && MayEvict(store, now, evicted)
    ensures evicted.Some? <==> |Unexpired(store, now)| >= 4096
    ensures evicted.Some? ==> evicted.value in store && now <= store[evicted.value]
    ensures evicted.Some? && n in store && now <= store[n] ==> store[evicted.value] <= store[n]
  {
    var live := Live(store, now);
    assert live.Keys == Unexpired(store, now);
    assert |live| == |live.Keys|;
    if |live| >= MAX_NONCES {
      var m :| m in live.Keys;
      assert live[m] == store[m] <= now + WINDOW;
    }
    if evicted.Some? && n in store && now <= store[n] {
      assert n in live;
    }
  }

  lemma ConsumeKeeps(store: Store, a: Authorization, now: int, evicted: Option<string>, n: string)
    ensures var after := Consume(store, a, now, evicted);
            && (n in after <==> n == a.nonce || (n in store && now <= store[n] && evicted != Some(n)))
            && (n in after ==> after[n] == if n == a.nonce then a.expiresAt else store[n])
  {
  }

  /** Where a stored nonce comes from. */
  lemma {:induction false} StoredWasUsed(uses: seq<Use>, n: string)
    requires Run(uses) && n in After(uses)
    ensures exists i :: 0 <= i < |uses| && uses[i].a.nonce == n && uses[i].a.expiresAt == After(uses)[n]
              && uses[|uses| - 1].now <= uses[i].a.expiresAt
  {
    var init, u := uses[..|uses| - 1], uses[|uses| - 1];
    if u.a.nonce != n {
      UseKeepsAllButTheOldest(uses, n);
      StoredWasUsed(init, n);
      var i :| 0 <= i < |init| && init[i].a.nonce == n && init[i].a.expiresAt == After(init)[n];
      assert uses[i] == init[i];
    }
  }

  lemma {:induction false} UnexpiredStays(uses: seq<Use>, i: nat)
    requires Run(uses) && i < |uses| && (forall k | 0 <= k < |uses| :: uses[k].evicted.None?)
    requires uses[|uses| - 1].now <= uses[i].a.expiresAt
    ensures uses[i].a.nonce in After(uses)
  {
    var init := uses[..|uses| - 1];
    if i < |init| {
      RunPrefix(uses, |init|);
      assert forall k | 0 <= k < |init| :: init[k] == uses[k];
      UnexpiredStays(init, i);
      UsedNonceIsRemembered(init, i, uses[|uses| - 1].now);
    }
  }

  /** Main result: while the store is never full, an authorization is accepted if and only if it is
      sound, its nonce has at least 16 characters, it expires within the next 900 seconds, and no
      earlier use of its nonce was still unexpired at the last use of all. */
  lemma AcceptedIff(uses: seq<Use>, a: Authorization, now: int)
    requires Run(uses) && NeverFull(uses) && uses != []
    ensures Accepts(After(uses), a, now) <==>
      && a.sound && |a.nonce| >= 16 && now <= a.expiresAt <= now + 900
      && forall i | 0 <= i < |uses| && uses[i].a.nonce == a.nonce :: uses[i].a.expiresAt < uses[|uses| - 1].now
  {
    NothingEvicted(uses);
    if a.nonce in After(uses) {
      StoredWasUsed(uses, a.nonce);
    }
    forall i | 0 <= i < |uses| && uses[i].a.nonce == a.nonce && uses[|uses| - 1].now <= uses[i].a.expiresAt
      ensures a.nonce in After(uses)
    {
      UnexpiredStays(uses, i);
    }
  }
}
