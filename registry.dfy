/** The handler table of one event bus, as a value.

    `createEventBus` keeps, per instance, an object from event name to an
    array of callbacks, with the reserved name "*" for wildcard handlers.
    This module states what each operation does to that table; the class in
    module Bus performs the same changes step by step and is proved to agree
    with the functions here. */
module Registry {

  datatype Option<T> = None | Some(value: T)

  /** The reserved name of the wildcard list. */
  const Wildcard: string := "*"

  /** The table `createEventBus` starts from: only the wildcard list, empty. */
  const Initial: Table := map[Wildcard := []]

  /** A callback stored in a list. `User(id)` is a function the caller passed
      to `on` or `once`, known only by its identity. `Helper` is the
      forwarding closure that `once` creates: `serial` makes it distinct from
      every other callback, `target` is the handler it forwards to, and `key`
      is the name it clears after forwarding. */
  datatype Callback = User(id: nat) | Helper(serial: nat, target: nat, key: string)

  /** The registry: event name to callbacks in registration order. */
  type Table = map<string, seq<Callback>>

  /** An unsubscribe closure, described by what it filters: the list it reads
      and the callback it compares against with `!==`. */
  datatype Token = Token(key: string, target: Callback)

  /** What a callback receives: a wildcard callback gets the event name with
      the payload, an event callback gets the payload alone. */
  datatype Arg<P> = Wild(eventName: string, payload: P) | Direct(payload: P)

  /** One call made by `emit`. */
  datatype Delivery<P> = Delivery(entry: Callback, arg: Arg<P>)

  /** The caller's handler that runs when `c` is called: a helper forwards to
      its target. */
  function Invoked(c: Callback): nat
  {
    match c
    case User(id) => id
    case Helper(_, target, _) => target
  }

  /** How many calls of a trace run the caller's handler `h`. */
  function CallsOf<P>(tr: seq<Delivery<P>>, h: nat): nat
  {
    if tr == [] then 0
    else (if Invoked(tr[0].entry) == h then 1 else 0) + CallsOf(tr[1..], h)
  }

  /** The list stored under `k`, or the empty list when `k` has none. */
  function Handlers(t: Table, k: string): seq<Callback>
  {
    if k in t then t[k] else []
  }

  /** Every once-wrapper sits in the list of the name it clears. */
  predicate HelpersHome(t: Table)
  {
    forall k, c :: k in t && c in t[k] && c.Helper? ==> c.key == k
  }

  /** Every once-wrapper in the table was numbered below `n`. */
  predicate SerialsBelow(t: Table, n: nat)
  {
    forall k, c :: k in t && c in t[k] && c.Helper? ==> c.serial < n
  }

  // ---------------------------------------------------------------- on

  /** `on(k, c)`: `c` goes to the end of `k`'s list, which is created when
      absent; no other list changes. */
  function Subscribed(t: Table, k: string, c: Callback): (r: Table)
    ensures r.Keys == t.Keys + {k}
    ensures r[k] == Handlers(t, k) + [c]
    ensures forall k' :: k' in t && k' != k ==> r[k'] == t[k']
  {
    var t' := if k in t then t else t[k := []];
    t'[k := t'[k] + [c]]
  }

  // ------------------------------------------------------- unsubscribe

  /** `s.filter(x => x !== c)`. */
  function Without(s: seq<Callback>, c: Callback): (r: seq<Callback>)
    ensures c !in r
    ensures forall x :: x in r ==> x in s
    ensures forall x :: x != c ==> multiset(r)[x] == multiset(s)[x]
  {
    if s == [] then []
    else
      var rest := Without(s[1..], c);
      assert s == [s[0]] + s[1..];
      if s[0] == c then rest else [s[0]] + rest
  }

  /** Filtering keeps the relative order of what remains: it distributes
      over concatenation. */
  lemma {:induction false} WithoutAppend(a: seq<Callback>, b: seq<Callback>, c: Callback)
    ensures Without(a + b, c) == Without(a, c) + Without(b, c)
    decreases |a|
  {
    if a == [] {
      assert a + b == b;
    } else {
      var ab := a + b;
      assert ab[0] == a[0];
      assert ab[1..] == a[1..] + b;
      WithoutAppend(a[1..], b, c);
    }
  }

  /** Filtering out a callback that is not there changes nothing. */
  lemma {:induction false} WithoutAbsent(s: seq<Callback>, c: Callback)
    requires c !in s
    ensures Without(s, c) == s
  {
    if s != [] {
      WithoutAbsent(s[1..], c);
    }
  }

  /** Invoking an unsubscribe closure: when the list holds the callback,
      replace the list by the filtered copy; otherwise leave the table. */
  function Unsubscribed(t: Table, tok: Token): (r: Table)
    ensures r.Keys == t.Keys
    ensures forall k :: k in t && k != tok.key ==> r[k] == t[k]
    ensures tok.key in t ==> r[tok.key] == Without(t[tok.key], tok.target)
  {
    if tok.key in t && tok.target in t[tok.key] then
      t[tok.key := Without(t[tok.key], tok.target)]
    else
      assert tok.key in t ==> Without(t[tok.key], tok.target) == t[tok.key] by {
        if tok.key in t { WithoutAbsent(t[tok.key], tok.target); }
      }
      t
  }

  /** Unsubscribing removes every entry equal to the token's callback, keeps
      every other entry with its multiplicity and in order, and a second
      invocation of the same closure changes nothing. */
  lemma UnsubscribeRemovesAll(t: Table, tok: Token, x: Callback)
    requires tok.key in t
    ensures tok.target !in Unsubscribed(t, tok)[tok.key]
    ensures x != tok.target ==>
      multiset(Unsubscribed(t, tok)[tok.key])[x] == multiset(t[tok.key])[x]
    ensures Unsubscribed(Unsubscribed(t, tok), tok) == Unsubscribed(t, tok)
  {
  }

  /** Subscribing a callback that the list does not hold and then invoking
      its token restores the list (an absent list stays as an empty one). */
  lemma UnsubscribeUndoesSubscribe(t: Table, k: string, c: Callback)
    requires c !in Handlers(t, k)
    ensures Unsubscribed(Subscribed(t, k, c), Token(k, c)) == t[k := Handlers(t, k)]
  {
    var s, h := Subscribed(t, k, c), Handlers(t, k);
    assert s[k] == h + [c];
    WithoutAppend(h, [c], c);
    WithoutAbsent(h, c);
    assert Without([c], c) == [];
    var r := Unsubscribed(s, Token(k, c));
    assert r[k] == h;
    assert r.Keys == t[k := h].Keys;
  }

  /** The token `once` returns filters the raw handler, which `once` never
      stored, so it leaves the stored wrapper in place. */
  lemma OnceTokenKeepsWrapper(t: Table, k: string, h: nat, n: nat)
    ensures Helper(n, h, k) in Unsubscribed(Subscribed(t, k, Helper(n, h, k)), Token(k, User(h)))[k]
  {
    var w := Helper(n, h, k);
    var s := Subscribed(t, k, w);
    assert s[k][|Handlers(t, k)|] == w;
    assert multiset(Without(s[k], User(h)))[w] == multiset(s[k])[w];
  }

  // ------------------------------------------------------------- clear

  /** `clear(name)`. The test is truthiness, so `undefined` and `""` both
      take the clear-all path; that path empties every present name except
      `""`. A non-empty name gets an empty list even if it had none. */
  function Cleared(t: Table, name: Option<string>): (r: Table)
    ensures name.Some? && name.value != "" ==>
      r.Keys == t.Keys + {name.value} && r[name.value] == [] &&
      forall k :: k in t && k != name.value ==> r[k] == t[k]
    ensures name.None? || name.value == "" ==>
      r.Keys == t.Keys &&
      (forall k :: k in t && k != "" ==> r[k] == []) &&
      ("" in t ==> r[""] == t[""])
  {
    if name.Some? && name.value != "" then t[name.value := []]
    else map k | k in t :: if k != "" then [] else t[k]
  }

  /** Clearing only empties lists and never moves a callback to another
      name, so the table invariant survives it. */
  lemma ClearedKeepsInvariant(t: Table, name: Option<string>, n: nat)
    requires HelpersHome(t)
    ensures HelpersHome(Cleared(t, name))
    ensures SerialsBelow(t, n) ==> SerialsBelow(Cleared(t, name), n)
  {
  }

  /** A token whose list has just been cleared has nothing left to remove. */
  lemma UnsubscribeAfterClear(t: Table, name: Option<string>, tok: Token)
    requires tok.key != ""
    requires name == Some(tok.key) || name.None?
    ensures Unsubscribed(Cleared(t, name), tok) == Cleared(t, name)
  {
  }

  // -------------------------------------------------------------- emit

  /** The side effect of calling `c`: a caller's handler is opaque and
      changes nothing; a once-wrapper calls `clear(key)` after forwarding. */
  function Fired(t: Table, c: Callback): (r: Table)
    ensures c.User? ==> r == t
    ensures c.Helper? && c.key != "" ==>
      r.Keys == t.Keys + {c.key} && r[c.key] == [] &&
      forall k :: k in t && k != c.key ==> r[k] == t[k]
    ensures c.Helper? && c.key == "" ==>
      r.Keys == t.Keys && forall k :: k in t && k != "" ==> r[k] == []
  {
    match c
    case User(_) => t
    case Helper(_, _, key) => Cleared(t, Some(key))
  }

  /** The table after calling every callback of `s` in order. No name
      disappears, and every list is either left as it was or emptied: calling
      callbacks never adds, moves or reorders an entry. */
  function FiredAll(t: Table, s: seq<Callback>): (r: Table)
    ensures t.Keys <= r.Keys
    ensures forall k :: k in r ==> r[k] == [] || (k in t && r[k] == t[k])
    decreases |s|
  {
    if s == [] then t else Fired(FiredAll(t, s[..|s| - 1]), s[|s| - 1])
  }

  /** One call per entry of the snapshot `s`, in its order, each with `arg`. */
  function Deliveries<P>(s: seq<Callback>, arg: Arg<P>): (r: seq<Delivery<P>>)
    ensures |r| == |s|
    ensures forall i :: 0 <= i < |s| ==> r[i] == Delivery(s[i], arg)
    decreases |s|
  {
    if s == [] then [] else Deliveries(s[..|s| - 1], arg) + [Delivery(s[|s| - 1], arg)]
  }

  /** The callbacks that a trace calls, in order. */
  function Entries<P>(tr: seq<Delivery<P>>): (r: seq<Callback>)
    ensures |r| == |tr| && forall i :: 0 <= i < |tr| ==> r[i] == tr[i].entry
  {
    if tr == [] then [] else [tr[0].entry] + Entries(tr[1..])
  }

  /** The table once the wildcard snapshot has been dispatched; like any
      run of callbacks it only empties lists. */
  function WildPhase(t: Table): (r: Table)
    ensures t.Keys <= r.Keys
    ensures forall k :: k in r ==> r[k] == [] || (k in t && r[k] == t[k])
  {
    FiredAll(t, Handlers(t, Wildcard))
  }

  /** The calls `emit(e, p)` makes: the wildcard snapshot with `{e, p}`,
      then the list of `e` as it stands after that phase, with `p`. */
  function EmitTrace<P>(t: Table, e: string, p: P): (r: seq<Delivery<P>>)
    ensures |r| == |Handlers(t, Wildcard)| + |Handlers(WildPhase(t), e)|
    ensures forall i :: 0 <= i < |Handlers(t, Wildcard)| ==> r[i].entry == Handlers(t, Wildcard)[i]
    ensures forall i :: 0 <= i < |r| ==>
      r[i].arg == (if i < |Handlers(t, Wildcard)| then Wild(e, p) else Direct(p))
  {
    Deliveries(Handlers(t, Wildcard), Wild(e, p)) +
    Deliveries(Handlers(WildPhase(t), e), Direct(p))
  }

  /** The table after `emit(e, _)` returns. An emit never adds an entry and
      never removes a name: each list is either as it was or empty. */
  function EmitState(t: Table, e: string): (r: Table)
    ensures t.Keys <= r.Keys
    ensures forall k :: k in r ==> r[k] == [] || (k in t && r[k] == t[k])
  {
    var t1 := WildPhase(t);
    FiredAll(t1, Handlers(t1, e))
  }

  /** Calling callbacks never breaks the table invariant. */
  lemma {:induction false} FiredAllKeepsInvariant(t: Table, s: seq<Callback>, n: nat)
    requires HelpersHome(t)
    ensures HelpersHome(FiredAll(t, s))
    ensures SerialsBelow(t, n) ==> SerialsBelow(FiredAll(t, s), n)
    decreases |s|
  {
    if s != [] {
      FiredAllKeepsInvariant(t, s[..|s| - 1], n);
      var c := s[|s| - 1];
      if c.Helper? {
        ClearedKeepsInvariant(FiredAll(t, s[..|s| - 1]), Some(c.key), n);
      }
    }
  }

  /** Calling callbacks whose once-wrappers all clear the non-empty name `K`
      leaves every other name, and whether it is present, as it was. */
  lemma {:induction false} FiredAllTouchesOnly(t: Table, s: seq<Callback>, K: string, k: string)
    requires K != "" && k != K
    requires forall c :: c in s && c.Helper? ==> c.key == K
    ensures (k in FiredAll(t, s) <==> k in t)
    ensures Handlers(FiredAll(t, s), k) == Handlers(t, k)
    decreases |s|
  {
    if s != [] {
      assert forall c :: c in s[..|s| - 1] ==> c in s;
      FiredAllTouchesOnly(t, s[..|s| - 1], K, k);
    }
  }

  /** The wildcard phase leaves the list of every other name untouched: the
      wildcard list holds only wildcard once-wrappers, and those clear "*".
      So reading `e`'s list after that phase, as `emit` does, sees the list
      as it was when `emit` was called. */
  lemma WildPhaseKeepsOtherLists(t: Table, e: string)
    requires HelpersHome(t) && e != Wildcard
    ensures (e in WildPhase(t) <==> e in t)
    ensures Handlers(WildPhase(t), e) == Handlers(t, e)
  {
    FiredAllTouchesOnly(t, Handlers(t, Wildcard), Wildcard, e);
  }

  /** A snapshot holding a once-wrapper for the non-empty name `K` leaves
      `K`'s list empty, whatever is called after the wrapper. */
  lemma {:induction false} FiredAllEmpties(t: Table, s: seq<Callback>, K: string, i: nat)
    requires K != "" && i < |s| && s[i].Helper? && s[i].key == K
    ensures K in FiredAll(t, s) && FiredAll(t, s)[K] == []
    decreases |s|
  {
    var front := s[..|s| - 1];
    if i == |s| - 1 {
      assert FiredAll(t, s) == Cleared(FiredAll(t, front), Some(K));
    } else {
      assert front[i] == s[i];
      FiredAllEmpties(t, front, K, i);
    }
  }

  /** Calling the caller's own handlers leaves the table as it was. */
  lemma {:induction false} FiredAllUsers(t: Table, s: seq<Callback>)
    requires forall c :: c in s ==> c.User?
    ensures FiredAll(t, s) == t
    decreases |s|
  {
    if s != [] {
      assert forall c :: c in s[..|s| - 1] ==> c in s;
      FiredAllUsers(t, s[..|s| - 1]);
    }
  }

  /** An emit that reaches no once-wrapper leaves the table as it was. */
  lemma EmitWithoutWrappers(t: Table, e: string)
    requires HelpersHome(t) && e != Wildcard
    requires forall c :: c in Handlers(t, Wildcard) ==> c.User?
    requires forall c :: c in Handlers(t, e) ==> c.User?
    ensures EmitState(t, e) == t
  {
    FiredAllUsers(t, Handlers(t, Wildcard));
    FiredAllUsers(t, Handlers(t, e));
  }

  /** Dispatch order: first one call per wildcard entry, in registration
      order, with `{eventName: e, payload: p}`; then one call per entry of
      `e`'s list, in registration order, with `p`. When `e` has no list only
      wildcard calls happen. */
  lemma EmitOrder<P>(t: Table, e: string, p: P)
    requires HelpersHome(t) && e != Wildcard
    ensures var w, d, tr := Handlers(t, Wildcard), Handlers(t, e), EmitTrace(t, e, p);
      |tr| == |w| + |d| &&
      (forall i :: 0 <= i < |w| ==> tr[i] == Delivery(w[i], Wild(e, p))) &&
      (forall j :: 0 <= j < |d| ==> tr[|w| + j] == Delivery(d[j], Direct(p)))
  {
    WildPhaseKeepsOtherLists(t, e);
  }

  /** `emit("*", p)` walks the wildcard list twice: first with
      `{eventName: "*", payload: p}`, then, as the list of the name "*",
      with `p` alone. */
  lemma EmitWildcardName<P>(t: Table, p: P)
    requires forall c :: c in Handlers(t, Wildcard) ==> c.User?
    ensures EmitTrace(t, Wildcard, p) ==
      Deliveries(Handlers(t, Wildcard), Wild(Wildcard, p)) + Deliveries(Handlers(t, Wildcard), Direct(p))
  {
    FiredAllUsers(t, Handlers(t, Wildcard));
  }

  /** A once-wrapper in the wildcard list clears it during the first walk of
      `emit("*", p)`, so the second walk calls nothing. */
  lemma EmitWildcardNameWithWrapper<P>(t: Table, p: P, i: nat)
    requires i < |Handlers(t, Wildcard)| && Handlers(t, Wildcard)[i].Helper?
    requires Handlers(t, Wildcard)[i].key == Wildcard
    ensures EmitTrace(t, Wildcard, p) == Deliveries(Handlers(t, Wildcard), Wild(Wildcard, p))
  {
    FiredAllEmpties(t, Handlers(t, Wildcard), Wildcard, i);
    assert Handlers(WildPhase(t), Wildcard) == [];
  }

  /** Every registration is one call: the callbacks called are the wildcard
      list followed by `e`'s list, so a handler registered twice is called
      twice. */
  lemma EmitCallsEveryEntry<P>(t: Table, e: string, p: P, c: Callback)
    requires HelpersHome(t) && e != Wildcard
    ensures Entries(EmitTrace(t, e, p)) == Handlers(t, Wildcard) + Handlers(t, e)
    ensures multiset(Entries(EmitTrace(t, e, p)))[c] ==
      multiset(Handlers(t, Wildcard))[c] + multiset(Handlers(t, e))[c]
  {
    EmitOrder(t, e, p);
    var w, d := Handlers(t, Wildcard), Handlers(t, e);
    var es := Entries(EmitTrace(t, e, p));
    assert forall i :: 0 <= i < |es| ==> es[i] == (w + d)[i] by {
      forall i | 0 <= i < |es| ensures es[i] == (w + d)[i] {
        if i >= |w| {
          assert es[|w| + (i - |w|)] == d[i - |w|];
        }
      }
    }
  }

  /** Emitting keeps the table invariant. */
  lemma EmitKeepsInvariant(t: Table, e: string, n: nat)
    requires HelpersHome(t)
    ensures HelpersHome(EmitState(t, e))
    ensures SerialsBelow(t, n) ==> SerialsBelow(EmitState(t, e), n)
  {
    FiredAllKeepsInvariant(t, Handlers(t, Wildcard), n);
    var t1 := WildPhase(t);
    FiredAllKeepsInvariant(t1, Handlers(t1, e), n);
  }

  /** A once-wrapper in `e`'s list empties that list during the emit that
      reaches it, provided `e` is a non-empty name. */
  lemma OnceEmptiesItsList(t: Table, e: string, i: nat)
    requires HelpersHome(t) && e != Wildcard && e != ""
    requires i < |Handlers(t, e)| && Handlers(t, e)[i].Helper?
    ensures e in EmitState(t, e) && EmitState(t, e)[e] == []
  {
    WildPhaseKeepsOtherLists(t, e);
    var t1 := WildPhase(t);
    var d := Handlers(t, e);
    assert d[i] in t[e];
    FiredAllEmpties(t1, d, e, i);
  }

  /** The frame of an emit: for a non-empty event name `e` other than "*",
      every name other than "*" and `e` keeps its list, and keeps being
      present or absent. */
  lemma EmitTouchesOnly(t: Table, e: string, k: string)
    requires HelpersHome(t)
    requires e != Wildcard && e != "" && k != Wildcard && k != e
    ensures k in EmitState(t, e) <==> k in t
    ensures Handlers(EmitState(t, e), k) == Handlers(t, k)
  {
    FiredAllTouchesOnly(t, Handlers(t, Wildcard), Wildcard, k);
    FiredAllKeepsInvariant(t, Handlers(t, Wildcard), 0);
    var t1 := WildPhase(t);
    FiredAllTouchesOnly(t1, Handlers(t1, e), e, k);
  }

  /** A snapshot holding a once-wrapper for the name `""` empties every other
      list present: its `clear("")` takes the clear-all path. */
  lemma {:induction false} FiredAllWipes(t: Table, s: seq<Callback>, i: nat, k: string)
    requires i < |s| && s[i].Helper? && s[i].key == ""
    requires k in t && k != ""
    ensures k in FiredAll(t, s) && FiredAll(t, s)[k] == []
    decreases |s|
  {
    var front := s[..|s| - 1];
    if i == |s| - 1 {
      assert FiredAll(t, s) == Fired(FiredAll(t, front), s[i]);
    } else {
      assert front[i] == s[i];
      FiredAllWipes(t, front, i, k);
    }
  }

  /** Emitting `""` when its list holds a once-wrapper empties every other
      list of the bus, the wildcard list included. */
  lemma OnceOnEmptyNameWipesBus(t: Table, i: nat, k: string)
    requires HelpersHome(t)
    requires i < |Handlers(t, "")| && Handlers(t, "")[i].Helper?
    requires k in t && k != ""
    ensures k in EmitState(t, "") && EmitState(t, "")[k] == []
  {
    WildPhaseKeepsOtherLists(t, "");
    var t1 := WildPhase(t);
    assert Handlers(t, "")[i] in t[""];
    FiredAllWipes(t1, Handlers(t1, ""), i, k);
  }

  /** A once-wrapper in the wildcard list empties the wildcard list during
      any emit; the whole snapshot is still called. */
  lemma OnceEmptiesWildcard(t: Table, e: string, i: nat)
    requires HelpersHome(t) && e != Wildcard
    requires i < |Handlers(t, Wildcard)| && Handlers(t, Wildcard)[i].Helper?
    ensures Wildcard in EmitState(t, e) && EmitState(t, e)[Wildcard] == []
  {
    var w := Handlers(t, Wildcard);
    assert w[i] in t[Wildcard];
    FiredAllEmpties(t, w, Wildcard, i);
    var t1 := WildPhase(t);
  }

  /** After an emit that reached a once-wrapper of `e`, the next emit of `e`
      calls only wildcard entries. */
  lemma OnceNotCalledAgain<P>(t: Table, e: string, i: nat, q: P)
    requires HelpersHome(t) && e != Wildcard && e != ""
    requires i < |Handlers(t, e)| && Handlers(t, e)[i].Helper?
    ensures EmitTrace(EmitState(t, e), e, q) ==
      Deliveries(Handlers(EmitState(t, e), Wildcard), Wild(e, q))
  {
    OnceEmptiesItsList(t, e, i);
    EmitKeepsInvariant(t, e, 0);
    var t2 := EmitState(t, e);
    WildPhaseKeepsOtherLists(t2, e);
    assert Deliveries(Handlers(WildPhase(t2), e), Direct(q)) == [];
  }

  /** `clear(e)` with a non-empty name silences `e`: the next emit of `e`
      calls only the wildcard entries. */
  lemma ClearOneSilencesEvent<P>(t: Table, e: string, p: P)
    requires HelpersHome(t) && e != Wildcard && e != ""
    ensures EmitTrace(Cleared(t, Some(e)), e, p) == Deliveries(Handlers(t, Wildcard), Wild(e, p))
  {
    var t' := Cleared(t, Some(e));
    ClearedKeepsInvariant(t, Some(e), 0);
    WildPhaseKeepsOtherLists(t', e);
    assert Handlers(t', Wildcard) == Handlers(t, Wildcard);
  }

  /** `clear()` silences every name except `""`: the next emit calls
      nothing at all. */
  lemma ClearAllSilencesBus<P>(t: Table, e: string, p: P)
    requires e != ""
    ensures EmitTrace(Cleared(t, None), e, p) == []
  {
    var t' := Cleared(t, None);
    assert Handlers(t', Wildcard) == [];
    assert WildPhase(t') == t';
  }

  // ------------------------------------------------- intended clearing

  /** `clear(name)` as its documentation describes it: a given name, `""`
      included, has its list emptied; no name at all empties every list.
      It differs from `Cleared` only on `""`. */
  function ClearedIntended(t: Table, name: Option<string>): (r: Table)
    ensures name.Some? ==>
      r.Keys == t.Keys + {name.value} && r[name.value] == [] &&
      forall k :: k in t && k != name.value ==> r[k] == t[k]
    ensures name.None? ==> r.Keys == t.Keys && forall k :: k in t ==> r[k] == []
    ensures name != Some("") && !(name.None? && "" in t) ==> r == Cleared(t, name)
  {
    if name.Some? then t[name.value := []]
    else map k | k in t :: []
  }

  /** A once-wrapper as its documentation describes it: after forwarding,
      it removes itself from its list, and nothing else. */
  function FiredIntended(t: Table, c: Callback): (r: Table)
    ensures r.Keys == t.Keys
    ensures c.Helper? && c.key in t ==>
      c !in r[c.key] && forall x :: x != c ==> multiset(r[c.key])[x] == multiset(t[c.key])[x]
    ensures forall k :: k in t && (c.User? || k != c.key) ==> r[k] == t[k]
  {
    match c
    case User(_) => t
    case Helper(_, _, key) => Unsubscribed(t, Token(key, c))
  }
}
