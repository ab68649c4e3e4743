/** One instance built by `createEventBus`: the closure-held table becomes
    the field `bus`, and the inner functions become methods that change it
    in place. Each method is proved to leave `bus` as the matching function
    of module Registry says. */
module Bus {
  import opened Registry

  class EventBus {
    /** The registry object: name to callbacks in registration order. */
    var bus: Table
    /** How many once-wrappers this bus has created; the next one is
        numbered `serials`, so it equals no callback already stored. */
    var serials: nat

    ghost predicate Valid()
      reads this
    {
      Wildcard in bus && HelpersHome(bus) && SerialsBelow(bus, serials)
    }

    /** `createEventBus()`: a table holding only the empty wildcard list. */
    constructor ()
      ensures Valid()
      ensures bus == Initial && serials == 0
    {
      bus := map[Wildcard := []];
      serials := 0;
    }

    /** The push in `on`: the wildcard list is appended to directly; any
        other name gets a list first when it has none. */
    method Register(k: string, c: Callback)
      requires Valid()
      requires c.Helper? ==> c.key == k && c.serial < serials
      modifies this
      ensures Valid() && serials == old(serials)
      ensures bus == Subscribed(old(bus), k, c)
    {
      if k == Wildcard {
        bus := bus[Wildcard := bus[Wildcard] + [c]];
      } else {
        if k !in bus {
          bus := bus[k := []];
        }
        bus := bus[k := bus[k] + [c]];
      }
    }

    /** `on(k, h)`: `h` is appended to `k`'s list; the returned closure
        filters `h` out of `k`'s list. */
    method On(k: string, h: nat) returns (tok: Token)
      requires Valid()
      modifies this
      ensures Valid() && serials == old(serials)
      ensures bus == Subscribed(old(bus), k, User(h))
      ensures tok == Token(k, User(h))
    {
      Register(k, User(h));
      tok := Token(k, User(h));
    }

    /** `once(k, h)`: a new wrapper, equal to nothing already stored, is
        appended to `k`'s list. The returned closure filters the raw `h`,
        not that wrapper. */
    method Once(k: string, h: nat) returns (tok: Token)
      requires Valid()
      modifies this
      ensures Valid() && serials == old(serials) + 1
      ensures bus == Subscribed(old(bus), k, Helper(old(serials), h, k))
      ensures forall k' :: k' in old(bus) ==> Helper(old(serials), h, k) !in old(bus)[k']
      ensures tok == Token(k, User(h))
    {
      var helper := Helper(serials, h, k);
      serials := serials + 1;
      Register(k, helper);
      tok := Token(k, User(h));
    }

    /** `once(k, h)` as its documentation intends it: the returned closure
        filters the wrapper that was stored, so invoking it before any emit
        takes the registration back. */
    method OnceIntended(k: string, h: nat) returns (tok: Token)
      requires Valid()
      modifies this
      ensures Valid() && serials == old(serials) + 1
      ensures bus == Subscribed(old(bus), k, Helper(old(serials), h, k))
      ensures tok == Token(k, Helper(old(serials), h, k))
      ensures Unsubscribed(bus, tok) == old(bus)[k := Handlers(old(bus), k)]
    {
      var n := serials;
      var _ := Once(k, h);
      tok := Token(k, Helper(n, h, k));
      UnsubscribeUndoesSubscribe(old(bus), k, Helper(n, h, k));
    }

    /** Invoking a closure returned by `on` or `once`: when the list holds
        the callback, the list is replaced by a filtered copy. */
    method Unsubscribe(tok: Token)
      requires Valid()
      modifies this
      ensures Valid() && serials == old(serials)
      ensures bus == Unsubscribed(old(bus), tok)
    {
      if tok.key in bus && tok.target in bus[tok.key] {
        bus := bus[tok.key := Without(bus[tok.key], tok.target)];
      }
    }

    /** `clear(name)`: a truthy name gets a fresh empty list; otherwise the
        loop over the table's names gives every name but `""` one. */
    method Clear(name: Option<string>)
      requires Valid()
      modifies this
      ensures Valid() && serials == old(serials)
      ensures bus == Cleared(old(bus), name)
    {
      ghost var t0 := bus;
      ClearedKeepsInvariant(t0, name, serials);
      if name.Some? && name.value != "" {
        bus := bus[name.value := []];
        return;
      }
      var pending := bus.Keys;
      while pending != {}
        invariant pending <= t0.Keys && bus.Keys == t0.Keys
        invariant serials == old(serials)
        invariant forall k :: k in bus ==>
          bus[k] == if k in pending || k == "" then t0[k] else []
        decreases pending
      {
        var k :| k in pending;
        if k != "" {
          bus := bus[k := []];
        }
        pending := pending - {k};
      }
      assert bus == Cleared(t0, name);
    }

    /** Calling one stored callback: the caller's handler runs (opaque); a
        once-wrapper forwards to its target and then calls `clear(key)`. */
    method Invoke(c: Callback)
      requires Valid()
      modifies this
      ensures Valid() && serials == old(serials)
      ensures bus == Fired(old(bus), c)
    {
      match c
      case User(_) =>
      case Helper(_, _, key) => Clear(Some(key));
    }

    /** One `forEach` of `emit`: every callback of the snapshot `s` is
        called in order with `arg`, whatever the calls do to the table. */
    method Walk<P>(s: seq<Callback>, arg: Arg<P>) returns (calls: seq<Delivery<P>>)
      requires Valid()
      modifies this
      ensures Valid() && serials == old(serials)
      ensures calls == Deliveries(s, arg)
      ensures bus == FiredAll(old(bus), s)
    {
      calls := [];
      var i := 0;
      while i < |s|
        invariant 0 <= i <= |s|
        invariant Valid() && serials == old(serials)
        invariant bus == FiredAll(old(bus), s[..i])
        invariant calls == Deliveries(s[..i], arg)
      {
        calls := calls + [Delivery(s[i], arg)];
        Invoke(s[i]);
        assert s[..i + 1][..i] == s[..i];
        i := i + 1;
      }
      assert s[..i] == s;
    }

    /** `emit(e, p)`: the wildcard array as it is now is walked to the end,
        whatever its callbacks do to the table; only then is `e`'s entry
        read, and that array is walked the same way. Returns the calls made. */
    method Emit<P>(e: string, p: P) returns (trace: seq<Delivery<P>>)
      requires Valid()
      modifies this
      ensures Valid() && serials == old(serials)
      ensures trace == EmitTrace(old(bus), e, p)
      ensures bus == EmitState(old(bus), e)
    {
      var wild := [];
      if Wildcard in bus {
        wild := Walk(bus[Wildcard], Wild(e, p));
      }
      var direct := [];
      if e in bus {
        direct := Walk(bus[e], Direct(p));
      }
      trace := wild + direct;
    }
  }
}
