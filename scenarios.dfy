/** Clients of fresh buses, one per behaviour the package's tests exercise.
    Each lemma states what the emits make of the table that a sequence of
    calls builds from `Initial`; each method performs those calls on an
    `EventBus` and returns the calls its emits made. */
module Scenarios {
  import opened Registry
  import opened Bus

  /** A fresh bus after one registration on `k`. */
  lemma Single(k: string, c: Callback)
    ensures var t := Subscribed(Initial, k, c);
      t.Keys == {Wildcard, k} && t[k] == [c] && (k != Wildcard ==> t[Wildcard] == [])
  {
    assert Handlers(Initial, k) == [];
  }

  /** A fresh bus after two registrations on `k`, in that order. */
  lemma Pair(k: string, c1: Callback, c2: Callback)
    ensures var t := Subscribed(Subscribed(Initial, k, c1), k, c2);
      t.Keys == {Wildcard, k} && t[k] == [c1, c2] && (k != Wildcard ==> t[Wildcard] == [])
  {
    Single(k, c1);
    assert [c1] + [c2] == [c1, c2];
  }

  /** The same table, written out. */
  lemma PairShape(k: string, c1: Callback, c2: Callback)
    requires k != Wildcard
    ensures Subscribed(Subscribed(Initial, k, c1), k, c2) == map[Wildcard := [], k := [c1, c2]]
  {
    Pair(k, c1, c2);
  }

  /** The calls of `h` in a trace of two calls. */
  lemma CallsOfPair<P>(d1: Delivery<P>, d2: Delivery<P>, h: nat)
    ensures CallsOf([d1, d2], h) ==
      (if Invoked(d1.entry) == h then 1 else 0) + (if Invoked(d2.entry) == h then 1 else 0)
  {
    assert [d1, d2][1..] == [d2] && [d2][1..] == [];
    assert CallsOf([d2], h) == (if Invoked(d2.entry) == h then 1 else 0) + CallsOf([d2][1..], h);
  }

  /** On a bus with no wildcard handler, once an emit of the non-empty name
      `k` reaches a once-wrapper, the next emit of `k` calls nothing. */
  lemma SilentAfterOnce<P>(t: Table, k: string, i: nat, q: P)
    requires HelpersHome(t) && k != Wildcard && k != "" && Handlers(t, Wildcard) == []
    requires i < |Handlers(t, k)| && Handlers(t, k)[i].Helper?
    ensures EmitTrace(EmitState(t, k), k, q) == []
  {
    OnceNotCalledAgain(t, k, i, q);
    assert WildPhase(t) == t;
    FiredAllTouchesOnly(t, Handlers(t, k), k, Wildcard);
  }

  /** A table holding no once-wrapper: an emit calls the wildcard list and
      then `k`'s list, and changes nothing. */
  lemma EmitPlain<P>(t: Table, k: string, p: P)
    requires k != Wildcard
    requires forall k' :: k' in t ==> forall c :: c in t[k'] ==> c.User?
    ensures EmitTrace(t, k, p) ==
      Deliveries(Handlers(t, Wildcard), Wild(k, p)) + Deliveries(Handlers(t, k), Direct(p))
    ensures EmitState(t, k) == t
  {
    assert HelpersHome(t);
    EmitWithoutWrappers(t, k);
    FiredAllUsers(t, Handlers(t, Wildcard));
  }

  /** `emit(k1, p)` then `emit(k2, q)` on one bus. */
  method EmitTwice<P>(b: EventBus, k1: string, p: P, k2: string, q: P) returns (first: seq<Delivery<P>>, second: seq<Delivery<P>>)
    requires b.Valid()
    modifies b
    ensures b.Valid()
    ensures first == EmitTrace(old(b.bus), k1, p)
    ensures second == EmitTrace(EmitState(old(b.bus), k1), k2, q)
  {
    first := b.Emit(k1, p);
    second := b.Emit(k2, q);
  }

  // ---------------------------------------------------------- isolation

  /** Two buses share nothing: a handler on one is not called by an emit on
      the other. */
  method Isolation<P>(k: string, h: nat, p: P) returns (trace: seq<Delivery<P>>)
    requires k != Wildcard
    ensures trace == []
  {
    var one := new EventBus();
    var two := new EventBus();
    var _ := one.On(k, h);
    assert two.bus == Initial;
    EmitPlain(Initial, k, p);
    trace := two.Emit(k, p);
  }

  // ----------------------------------------------------------- delivery

  /** `on(k, h)` then `emit(k, p)`: one call, of `h`, with `p`. */
  lemma DeliversPayloadTable<P>(k: string, h: nat, p: P)
    requires k != Wildcard
    ensures EmitTrace(Subscribed(Initial, k, User(h)), k, p) == [Delivery(User(h), Direct(p))]
  {
    Single(k, User(h));
    EmitPlain(Subscribed(Initial, k, User(h)), k, p);
  }

  method DeliversPayload<P>(k: string, h: nat, p: P) returns (trace: seq<Delivery<P>>)
    requires k != Wildcard
    ensures trace == [Delivery(User(h), Direct(p))]
  {
    var b := new EventBus();
    var _ := b.On(k, h);
    assert b.bus == Subscribed(Initial, k, User(h));
    DeliversPayloadTable(k, h, p);
    trace := b.Emit(k, p);
  }

  /** Two `on` calls are two calls in registration order, even of the same
      handler, which then runs twice. */
  lemma FanOutTable<P>(k: string, h1: nat, h2: nat, p: P)
    requires k != Wildcard
    ensures var t := Subscribed(Subscribed(Initial, k, User(h1)), k, User(h2));
      EmitTrace(t, k, p) == [Delivery(User(h1), Direct(p)), Delivery(User(h2), Direct(p))] &&
      (h1 == h2 ==> CallsOf(EmitTrace(t, k, p), h1) == 2)
  {
    var t := Subscribed(Subscribed(Initial, k, User(h1)), k, User(h2));
    Pair(k, User(h1), User(h2));
    EmitPlain(t, k, p);
    CallsOfPair(Delivery(User(h1), Direct(p)), Delivery(User(h2), Direct(p)), h1);
  }

  method FanOut<P>(k: string, h1: nat, h2: nat, p: P) returns (trace: seq<Delivery<P>>)
    requires k != Wildcard
    ensures trace == [Delivery(User(h1), Direct(p)), Delivery(User(h2), Direct(p))]
    ensures h1 == h2 ==> CallsOf(trace, h1) == 2
  {
    var b := new EventBus();
    var _ := b.On(k, h1);
    assert b.bus == Subscribed(Initial, k, User(h1));
    var _ := b.On(k, h2);
    assert b.bus == Subscribed(Subscribed(Initial, k, User(h1)), k, User(h2));
    FanOutTable(k, h1, h2, p);
    trace := b.Emit(k, p);
  }

  // --------------------------------------------------------------- once

  /** `once(k, h)` with a non-empty name: the first emit calls the wrapper,
      the second calls nothing. */
  lemma OnceRunsOnceTable<P>(k: string, h: nat, p: P, q: P)
    requires k != Wildcard && k != ""
    ensures var t := Subscribed(Initial, k, Helper(0, h, k));
      EmitTrace(t, k, p) == [Delivery(Helper(0, h, k), Direct(p))] &&
      EmitTrace(EmitState(t, k), k, q) == []
  {
    var t := Subscribed(Initial, k, Helper(0, h, k));
    Single(k, Helper(0, h, k));
    EmitOrder(t, k, p);
    SilentAfterOnce(t, k, 0, q);
  }

  method OnceRunsOnce<P>(k: string, h: nat, p: P, q: P) returns (first: seq<Delivery<P>>, second: seq<Delivery<P>>)
    requires k != Wildcard && k != ""
    ensures first == [Delivery(Helper(0, h, k), Direct(p))]
    ensures second == []
    ensures CallsOf(first + second, h) == 1
  {
    var b := new EventBus();
    var _ := b.Once(k, h);
    assert b.bus == Subscribed(Initial, k, Helper(0, h, k));
    OnceRunsOnceTable(k, h, p, q);
    first, second := EmitTwice(b, k, p, k, q);
    assert first + second == first;
  }

  /** A fresh bus after `once("", h)`, written out. */
  lemma EmptyNameShape(w: Callback)
    ensures Subscribed(Initial, "", w) == map[Wildcard := [], "" := [w]]
  {
    Single("", w);
  }

  /** On that table, an emit of `""` calls the wrapper once and leaves the
      table as it was: the clear-all path skips `""`. */
  lemma EmptyNameEmit<P>(h: nat, p: P)
    ensures var w := Helper(0, h, "");
      var d := map[Wildcard := [], "" := [w]];
      EmitTrace(d, "", p) == [Delivery(w, Direct(p))] && EmitState(d, "") == d
  {
    var w := Helper(0, h, "");
    var d := map[Wildcard := [], "" := [w]];
    assert WildPhase(d) == d;
    assert FiredAll(d, [w]) == Fired(FiredAll(d, []), w) by {
      assert [w][..0] == [];
    }
    assert Cleared(d, Some("")) == d;
  }

  /** `once("", h)`: the wrapper's `clear("")` takes the clear-all path,
      which skips `""`, so the table comes back unchanged and the wrapper
      runs on every emit. */
  lemma OnceOnEmptyNameTable<P>(h: nat, p: P, q: P)
    ensures var t := Subscribed(Initial, "", Helper(0, h, ""));
      EmitTrace(t, "", p) == [Delivery(Helper(0, h, ""), Direct(p))] &&
      EmitState(t, "") == t &&
      EmitTrace(EmitState(t, ""), "", q) == [Delivery(Helper(0, h, ""), Direct(q))] &&
      CallsOf(EmitTrace(t, "", p) + EmitTrace(EmitState(t, ""), "", q), h) == 2
  {
    var w := Helper(0, h, "");
    EmptyNameShape(w);
    EmptyNameEmit(h, p);
    EmptyNameEmit(h, q);
    var d1, d2 := Delivery(w, Direct(p)), Delivery(w, Direct(q));
    assert [d1] + [d2] == [d1, d2];
    CallsOfPair(d1, d2, h);
  }

  method OnceOnEmptyNameRepeats<P>(h: nat, p: P, q: P) returns (first: seq<Delivery<P>>, second: seq<Delivery<P>>)
    ensures first == [Delivery(Helper(0, h, ""), Direct(p))]
    ensures second == [Delivery(Helper(0, h, ""), Direct(q))]
    ensures CallsOf(first + second, h) == 2
  {
    var b := new EventBus();
    var _ := b.Once("", h);
    assert b.bus == Subscribed(Initial, "", Helper(0, h, ""));
    OnceOnEmptyNameTable(h, p, q);
    first, second := EmitTwice(b, "", p, "", q);
  }

  /** `on(k, g)` then `once(k, h)`: the wrapper's `clear(k)` empties the
      whole list, so `g` runs on the first emit only. */
  lemma OnceDropsNeighboursTable<P>(k: string, g: nat, h: nat, p: P, q: P)
    requires k != Wildcard && k != ""
    ensures var t := Subscribed(Subscribed(Initial, k, User(g)), k, Helper(0, h, k));
      EmitTrace(t, k, p) == [Delivery(User(g), Direct(p)), Delivery(Helper(0, h, k), Direct(p))] &&
      EmitTrace(EmitState(t, k), k, q) == [] &&
      (g != h ==> CallsOf(EmitTrace(t, k, p), g) == 1)
  {
    PairShape(k, User(g), Helper(0, h, k));
    NeighboursFirstEmit(k, g, h, p);
    NeighboursSecondEmit(k, g, h, q);
  }

  /** The first emit on that table, written out: both entries run. */
  lemma NeighboursFirstEmit<P>(k: string, g: nat, h: nat, p: P)
    requires k != Wildcard && k != ""
    ensures var w := Helper(0, h, k);
      var d: Table := map[Wildcard := [], k := [User(g), w]];
      EmitTrace(d, k, p) == [Delivery(User(g), Direct(p)), Delivery(w, Direct(p))] &&
      (g != h ==> CallsOf(EmitTrace(d, k, p), g) == 1)
  {
    var w := Helper(0, h, k);
    var d: Table := map[Wildcard := [], k := [User(g), w]];
    assert HelpersHome(d);
    EmitOrder(d, k, p);
    CallsOfPair(Delivery(User(g), Direct(p)), Delivery(w, Direct(p)), g);
  }

  /** The second emit on that table, written out: nothing runs. */
  lemma NeighboursSecondEmit<P>(k: string, g: nat, h: nat, q: P)
    requires k != Wildcard && k != ""
    ensures var d: Table := map[Wildcard := [], k := [User(g), Helper(0, h, k)]];
      EmitTrace(EmitState(d, k), k, q) == []
  {
    var d: Table := map[Wildcard := [], k := [User(g), Helper(0, h, k)]];
    assert HelpersHome(d);
    SilentAfterOnce(d, k, 1, q);
  }

  method OnceDropsNeighbours<P>(k: string, g: nat, h: nat, p: P, q: P) returns (first: seq<Delivery<P>>, second: seq<Delivery<P>>)
    requires k != Wildcard && k != ""
    ensures first == [Delivery(User(g), Direct(p)), Delivery(Helper(0, h, k), Direct(p))]
    ensures second == []
    ensures g != h ==> CallsOf(first + second, g) == 1
  {
    var b := new EventBus();
    var _ := b.On(k, g);
    assert b.bus == Subscribed(Initial, k, User(g)) && b.serials == 0;
    var _ := b.Once(k, h);
    assert b.bus == Subscribed(Subscribed(Initial, k, User(g)), k, Helper(0, h, k));
    OnceDropsNeighboursTable(k, g, h, p, q);
    first, second := EmitTwice(b, k, p, k, q);
    assert first + second == first;
  }

  /** Two `once("*", _)` calls: both wrappers run on the first emit, though
      the first one has already cleared the wildcard list, because the emit
      walks the array it read at the start; the second emit calls nothing. */
  lemma WildcardWrappersTable<P>(k: string, h1: nat, h2: nat, p: P, q: P)
    requires k != Wildcard
    ensures var t := Subscribed(Subscribed(Initial, Wildcard, Helper(0, h1, Wildcard)), Wildcard, Helper(1, h2, Wildcard));
      EmitTrace(t, k, p) ==
        [Delivery(Helper(0, h1, Wildcard), Wild(k, p)), Delivery(Helper(1, h2, Wildcard), Wild(k, p))] &&
      EmitTrace(EmitState(t, k), k, q) == []
  {
    var w1, w2 := Helper(0, h1, Wildcard), Helper(1, h2, Wildcard);
    var t := Subscribed(Subscribed(Initial, Wildcard, w1), Wildcard, w2);
    Pair(Wildcard, w1, w2);
    EmitOrder(t, k, p);
    OnceEmptiesWildcard(t, k, 0);
    WildPhaseKeepsOtherLists(t, k);
    var t2 := EmitState(t, k);
    assert k !in WildPhase(t) && t2 == WildPhase(t);
    assert Handlers(t2, Wildcard) == [] && Handlers(t2, k) == [] && WildPhase(t2) == t2;
  }

  method WildcardOnceWrappersAllRun<P>(k: string, h1: nat, h2: nat, p: P, q: P) returns (first: seq<Delivery<P>>, second: seq<Delivery<P>>)
    requires k != Wildcard
    ensures first == [Delivery(Helper(0, h1, Wildcard), Wild(k, p)), Delivery(Helper(1, h2, Wildcard), Wild(k, p))]
    ensures second == []
  {
    var b := new EventBus();
    var _ := b.Once(Wildcard, h1);
    assert b.bus == Subscribed(Initial, Wildcard, Helper(0, h1, Wildcard)) && b.serials == 1;
    var _ := b.Once(Wildcard, h2);
    assert b.bus == Subscribed(Subscribed(Initial, Wildcard, Helper(0, h1, Wildcard)), Wildcard, Helper(1, h2, Wildcard));
    WildcardWrappersTable(k, h1, h2, p, q);
    first, second := EmitTwice(b, k, p, k, q);
  }

  // -------------------------------------------------------- unsubscribe

  /** `on(k, h)`, its token invoked once or twice, then `emit(k, p)`: no
      call. */
  lemma UnsubscribeTable<P>(k: string, h: nat, p: P)
    requires k != Wildcard
    ensures var t := Unsubscribed(Subscribed(Initial, k, User(h)), Token(k, User(h)));
      EmitTrace(t, k, p) == [] && Unsubscribed(t, Token(k, User(h))) == t
  {
    var s := Subscribed(Initial, k, User(h));
    Single(k, User(h));
    var t := Unsubscribed(s, Token(k, User(h)));
    assert Without([User(h)], User(h)) == [];
    assert t.Keys == {Wildcard, k} && t[Wildcard] == [] && t[k] == [];
    EmitPlain(t, k, p);
  }

  method UnsubscribeStopsHandler<P>(k: string, h: nat, p: P) returns (trace: seq<Delivery<P>>)
    requires k != Wildcard
    ensures trace == []
  {
    var b := new EventBus();
    var tok := b.On(k, h);
    assert b.bus == Subscribed(Initial, k, User(h));
    b.Unsubscribe(tok);
    assert b.bus == Unsubscribed(Subscribed(Initial, k, User(h)), Token(k, User(h)));
    UnsubscribeTable(k, h, p);
    trace := b.Emit(k, p);
  }

  method UnsubscribeTwice<P>(k: string, h: nat, p: P) returns (trace: seq<Delivery<P>>)
    requires k != Wildcard
    ensures trace == []
  {
    var b := new EventBus();
    var tok := b.On(k, h);
    assert b.bus == Subscribed(Initial, k, User(h));
    b.Unsubscribe(tok);
    assert b.bus == Unsubscribed(Subscribed(Initial, k, User(h)), Token(k, User(h)));
    b.Unsubscribe(tok);
    UnsubscribeTable(k, h, p);
    trace := b.Emit(k, p);
  }

  /** `once(k, h)`, its token invoked, then `emit(k, p)`: the token filtered
      the raw `h`, which is not stored, so the wrapper still runs. */
  lemma OnceTokenTable<P>(k: string, h: nat, p: P)
    requires k != Wildcard
    ensures var t := Unsubscribed(Subscribed(Initial, k, Helper(0, h, k)), Token(k, User(h)));
      EmitTrace(t, k, p) == [Delivery(Helper(0, h, k), Direct(p))] &&
      CallsOf(EmitTrace(t, k, p), h) == 1
  {
    var w := Helper(0, h, k);
    var s := Subscribed(Initial, k, w);
    Single(k, w);
    var t := Unsubscribed(s, Token(k, User(h)));
    assert t == s;
    EmitOrder(t, k, p);
    assert [Delivery(w, Direct(p))][1..] == [];
  }

  method OnceTokenMissesWrapper<P>(k: string, h: nat, p: P) returns (trace: seq<Delivery<P>>)
    requires k != Wildcard
    ensures trace == [Delivery(Helper(0, h, k), Direct(p))]
    ensures CallsOf(trace, h) == 1
  {
    var b := new EventBus();
    var tok := b.Once(k, h);
    assert b.bus == Subscribed(Initial, k, Helper(0, h, k));
    b.Unsubscribe(tok);
    assert b.bus == Unsubscribed(Subscribed(Initial, k, Helper(0, h, k)), Token(k, User(h)));
    OnceTokenTable(k, h, p);
    trace := b.Emit(k, p);
  }

  /** The token of the intended `once`, which filters the wrapper that was
      stored instead of the raw handler, stops the handler before it runs. */
  lemma OnceWrapperTokenTable<P>(k: string, h: nat, p: P)
    requires k != Wildcard
    ensures var t := Unsubscribed(Subscribed(Initial, k, Helper(0, h, k)), Token(k, Helper(0, h, k)));
      EmitTrace(t, k, p) == []
  {
    var w := Helper(0, h, k);
    var s := Subscribed(Initial, k, w);
    Single(k, w);
    var t := Unsubscribed(s, Token(k, w));
    assert Without([w], w) == [];
    assert t.Keys == {Wildcard, k} && t[Wildcard] == [] && t[k] == [];
    EmitPlain(t, k, p);
  }

  method OnceWrapperTokenCancels<P>(k: string, h: nat, p: P) returns (trace: seq<Delivery<P>>)
    requires k != Wildcard
    ensures trace == []
  {
    var b := new EventBus();
    var tok := b.OnceIntended(k, h);
    assert b.bus == Subscribed(Initial, k, Helper(0, h, k));
    b.Unsubscribe(tok);
    assert b.bus == Unsubscribed(Subscribed(Initial, k, Helper(0, h, k)), Token(k, Helper(0, h, k)));
    OnceWrapperTokenTable(k, h, p);
    trace := b.Emit(k, p);
  }

  // ----------------------------------------------------------- wildcard

  /** `on("*", h)` then `emit(k, p)`: one call of `h` with `{k, p}`, and the
      table is unchanged for the next emit. */
  lemma WildcardTable<P>(k: string, h: nat, p: P)
    requires k != Wildcard
    ensures var t := Subscribed(Initial, Wildcard, User(h));
      EmitTrace(t, k, p) == [Delivery(User(h), Wild(k, p))] && EmitState(t, k) == t
  {
    Single(Wildcard, User(h));
    EmitPlain(Subscribed(Initial, Wildcard, User(h)), k, p);
  }

  method WildcardSeesEveryName<P>(k1: string, k2: string, h: nat, p1: P, p2: P) returns (trace: seq<Delivery<P>>)
    requires k1 != Wildcard && k2 != Wildcard
    ensures trace == [Delivery(User(h), Wild(k1, p1)), Delivery(User(h), Wild(k2, p2))]
  {
    var b := new EventBus();
    var _ := b.On(Wildcard, h);
    assert b.bus == Subscribed(Initial, Wildcard, User(h));
    WildcardTable(k1, h, p1);
    WildcardTable(k2, h, p2);
    var t1, t2 := EmitTwice(b, k1, p1, k2, p2);
    trace := t1 + t2;
  }

  // -------------------------------------------------------------- clear

  /** The table that `on(k, h)`, `on(other, g)`, `clear(k)` leave on a
      fresh bus. */
  lemma ClearOneNameShape(k: string, other: string, h: nat, g: nat)
    requires k != Wildcard && other != Wildcard && k != "" && k != other
    ensures Cleared(Subscribed(Subscribed(Initial, k, User(h)), other, User(g)), Some(k)) ==
      map[Wildcard := [], k := [], other := [User(g)]]
  {
    var s1 := Subscribed(Initial, k, User(h));
    Single(k, User(h));
    assert Handlers(s1, other) == [];
    var s2 := Subscribed(s1, other, User(g));
    assert s2.Keys == {Wildcard, k, other} && s2[Wildcard] == [] && s2[other] == [User(g)];
    var t := Cleared(s2, Some(k));
    assert t.Keys == {Wildcard, k, other} && t[Wildcard] == [] && t[k] == [] && t[other] == [User(g)];
  }

  /** `on(k, h)`, `on(other, g)`, `clear(k)`: emitting `k` calls nothing
      and leaves the table; emitting `other` still calls `g`. */
  lemma ClearOneNameTable<P>(k: string, other: string, h: nat, g: nat, p: P)
    requires k != Wildcard && other != Wildcard && k != "" && k != other
    ensures var t := Cleared(Subscribed(Subscribed(Initial, k, User(h)), other, User(g)), Some(k));
      EmitTrace(t, k, p) == [] && EmitState(t, k) == t &&
      EmitTrace(t, other, p) == [Delivery(User(g), Direct(p))]
  {
    ClearOneNameShape(k, other, h, g);
    var t: Table := map[Wildcard := [], k := [], other := [User(g)]];
    EmitPlain(t, k, p);
    EmitPlain(t, other, p);
  }

  method ClearOneName<P>(k: string, other: string, h: nat, g: nat, p: P) returns (trace: seq<Delivery<P>>)
    requires k != Wildcard && other != Wildcard && k != "" && k != other
    ensures trace == [Delivery(User(g), Direct(p))]
  {
    var b := new EventBus();
    var _ := b.On(k, h);
    assert b.bus == Subscribed(Initial, k, User(h));
    var _ := b.On(other, g);
    assert b.bus == Subscribed(Subscribed(Initial, k, User(h)), other, User(g));
    b.Clear(Some(k));
    assert b.bus == Cleared(Subscribed(Subscribed(Initial, k, User(h)), other, User(g)), Some(k));
    ClearOneNameTable(k, other, h, g, p);
    var t1, t2 := EmitTwice(b, k, p, other, p);
    trace := t1 + t2;
  }

  /** `clear()` silences every non-empty name and the wildcard list. */
  method ClearEverything<P>(k: string, h: nat, w: nat, p: P) returns (trace: seq<Delivery<P>>)
    requires k != Wildcard && k != ""
    ensures trace == []
  {
    var b := new EventBus();
    var _ := b.On(k, h);
    var _ := b.On(Wildcard, w);
    ghost var t0 := b.bus;
    b.Clear(None);
    ClearAllSilencesBus(t0, k, p);
    trace := b.Emit(k, p);
  }
}
