/** `FTableEventEmitter`: named events, each with a list of listeners;
    `once` registers a wrapper that unsubscribes itself when it fires.
    Callbacks are opaque ids; a `once` wrapper is a distinct function
    object, modelled by a token that no other wrapper shares. */
module Events {

  datatype Listener =
    | Plain(cb: nat)                 // registered by `on`
    | Wrapper(token: nat, cb: nat)   // the wrapper `once` registers; `wrapper.fn == cb`

  /** The callbacks a listener list calls, in order. */
  function Callbacks(ls: seq<Listener>): (r: seq<nat>)
    ensures |r| == |ls|
    ensures forall i :: 0 <= i < |ls| ==> r[i] == ls[i].cb
  {
    if ls == [] then [] else [ls[0].cb] + Callbacks(ls[1..])
  }

  /** `filter(cb => cb !== callback)` as the source writes it: a `once`
      wrapper is never `===` to the callback it wraps, so it stays. */
  function RemoveAsWritten(ls: seq<Listener>, cb: nat): (r: seq<Listener>)
    ensures forall l :: l in r <==> l in ls && l != Plain(cb)
  {
    if ls == [] then []
    else if ls[0] == Plain(cb) then RemoveAsWritten(ls[1..], cb)
    else [ls[0]] + RemoveAsWritten(ls[1..], cb)
  }

  /** `off` as its `wrapper.fn` bookkeeping intends: drop every listener
      that calls `cb`, whether registered by `on` or by `once`. */
  function RemoveCallback(ls: seq<Listener>, cb: nat): (r: seq<Listener>)
  {
    if ls == [] then []
    else if ls[0].cb == cb then RemoveCallback(ls[1..], cb)
    else [ls[0]] + RemoveCallback(ls[1..], cb)
  }

  /** Removal of one `once` wrapper by its identity. */
  function RemoveToken(ls: seq<Listener>, token: nat): (r: seq<Listener>)
  {
    if ls == [] then []
    else if ls[0].Wrapper? && ls[0].token == token then RemoveToken(ls[1..], token)
    else [ls[0]] + RemoveToken(ls[1..], token)
  }

  /** What is left of a listener list once every `once` wrapper in it has fired. */
  function DropOnce(ls: seq<Listener>): (r: seq<Listener>)
  {
    if ls == [] then []
    else if ls[0].Wrapper? then DropOnce(ls[1..])
    else [ls[0]] + DropOnce(ls[1..])
  }

  /** After the corrected `off(event, cb)`, no listener calls `cb`, and
      every other listener is still there, in the same order. */
  lemma {:induction false} RemoveCallbackExact(ls: seq<Listener>, cb: nat)
    ensures cb !in Callbacks(RemoveCallback(ls, cb))
    ensures forall l :: l in RemoveCallback(ls, cb) <==> l in ls && l.cb != cb
  {
    if ls != [] {
      RemoveCallbackExact(ls[1..], cb);
      assert ls == [ls[0]] + ls[1..];
    }
  }

  /** The source's `off(event, cb)` leaves every `once(event, cb)` listener
      in place: whatever else the list holds, `cb` still fires on the next
      `emit`. */
  lemma OffAsWrittenMissesOnce(ls: seq<Listener>, token: nat, cb: nat)
    requires Wrapper(token, cb) in ls
    ensures Wrapper(token, cb) in RemoveAsWritten(ls, cb)
    ensures cb in Callbacks(RemoveAsWritten(ls, cb))
  {
    var r := RemoveAsWritten(ls, cb);
    var j :| 0 <= j < |r| && r[j] == Wrapper(token, cb);
    assert Callbacks(r)[j] == cb;
  }

  /** The smallest instance: `once(e, cb)` then `off(e, cb)` changes nothing. */
  lemma OnceThenOffAsWritten(token: nat, cb: nat)
    ensures RemoveAsWritten([Wrapper(token, cb)], cb) == [Wrapper(token, cb)]
  {
  }

  /** After an emit, only `on` listeners remain: a `once` listener never
      fires twice, and a second emit calls exactly the `on` callbacks. */
  lemma {:induction false} DropOnceKeepsPlain(ls: seq<Listener>)
    ensures forall l :: l in DropOnce(ls) <==> l in ls && l.Plain?
    ensures DropOnce(DropOnce(ls)) == DropOnce(ls)
  {
    if ls != [] {
      DropOnceKeepsPlain(ls[1..]);
      assert ls == [ls[0]] + ls[1..];
    }
  }

  /** Tokens of the `once` wrappers in a list are pairwise distinct and
      below `bound`. */
  ghost predicate FreshTokens(ls: seq<Listener>, bound: nat) {
    (forall i :: 0 <= i < |ls| && ls[i].Wrapper? ==> ls[i].token < bound)
    && (forall i, j :: 0 <= i < j < |ls| && ls[i].Wrapper? && ls[j].Wrapper? ==> ls[i].token != ls[j].token)
  }

  /** Removing the wrapper with `token` from `done + rest`, where `token`
      is the first wrapper of `rest` and occurs nowhere else. */
  lemma {:induction false} RemoveTokenSplit(done: seq<Listener>, rest: seq<Listener>, token: nat)
    requires rest != [] && rest[0].Wrapper? && rest[0].token == token
    requires forall l :: l in done ==> !(l.Wrapper? && l.token == token)
    requires forall l :: l in rest[1..] ==> !(l.Wrapper? && l.token == token)
    ensures RemoveToken(done + rest, token) == done + rest[1..]
  {
    if done == [] {
      assert done + rest == rest;
      RemoveTokenAbsent(rest[1..], token);
      assert rest == [rest[0]] + rest[1..];
    } else {
      RemoveTokenSplit(done[1..], rest, token);
      assert done + rest == [done[0]] + (done[1..] + rest);
    }
  }

  lemma {:induction false} RemoveTokenAbsent(ls: seq<Listener>, token: nat)
    requires forall l :: l in ls ==> !(l.Wrapper? && l.token == token)
    ensures RemoveToken(ls, token) == ls
  {
    if ls != [] {
      RemoveTokenAbsent(ls[1..], token);
      assert ls == [ls[0]] + ls[1..];
    }
  }

  lemma {:induction false} DropOnceAppend(a: seq<Listener>, b: seq<Listener>)
    ensures DropOnce(a + b) == DropOnce(a) + DropOnce(b)
  {
    if a == [] {
      assert a + b == b;
    } else {
      DropOnceAppend(a[1..], b);
      assert (a + b)[0] == a[0] && (a + b)[1..] == a[1..] + b;
    }
  }

  class EventEmitter {
    var events: map<string, seq<Listener>>
    var nextToken: nat

    ghost predicate Valid()
      reads this
    {
      forall e :: e in events ==> FreshTokens(events[e], nextToken)
    }

    function Listeners(event: string): seq<Listener>
      reads this
    {
      if event in events then events[event] else []
    }

    constructor ()
      ensures Valid() && events == map[]
    {
      events := map[];
      nextToken := 0;
    }

    /** `on(event, callback)` */
    method On(event: string, cb: nat)
      requires Valid()
      modifies this
      ensures Valid() && nextToken == old(nextToken)
      ensures events == old(events)[event := old(Listeners(event)) + [Plain(cb)]]
    {
      events := events[event := Listeners(event) + [Plain(cb)]];
    }

    /** `once(event, callback)`: registers a fresh wrapper. */
    method Once(event: string, cb: nat)
      requires Valid()
      modifies this
      ensures Valid() && nextToken == old(nextToken) + 1
      ensures events == old(events)[event := old(Listeners(event)) + [Wrapper(old(nextToken), cb)]]
    {
      var token := nextToken;
      nextToken := nextToken + 1;
      events := events[event := Listeners(event) + [Wrapper(token, cb)]];
    }

    /** `off(event, callback)` as written: only listeners `===` to the
        callback go, so the wrappers `once` registered for it stay. */
    method Off(event: string, cb: nat)
      requires Valid()
      modifies this
      ensures Valid() && nextToken == old(nextToken)
      ensures event in old(events) ==> events == old(events)[event := RemoveAsWritten(old(events[event]), cb)]
      ensures event !in old(events) ==> events == old(events)
    {
      if event in events {
        RemoveAsWrittenFresh(events[event], cb, nextToken);
        events := events[event := RemoveAsWritten(events[event], cb)];
      }
    }

    /** `off(event, callback)` as the `wrapper.fn` bookkeeping intends:
        the wrappers registered for the callback go too. */
    method OffCorrected(event: string, cb: nat)
      requires Valid()
      modifies this
      ensures Valid() && nextToken == old(nextToken)
      ensures event in old(events) ==> events == old(events)[event := RemoveCallback(old(events[event]), cb)]
      ensures event !in old(events) ==> events == old(events)
    {
      if event in events {
        RemoveCallbackSubset(events[event], cb, nextToken);
        events := events[event := RemoveCallback(events[event], cb)];
      }
    }

    /** `emit(event)`: calls every listener registered when the emit starts,
        in order; each `once` wrapper removes itself as it runs. */
    method Emit(event: string) returns (called: seq<nat>)
      requires Valid()
      modifies this
      ensures Valid() && nextToken == old(nextToken)
      ensures called == Callbacks(old(Listeners(event)))
      ensures event in old(events) ==> events == old(events)[event := DropOnce(old(events[event]))]
      ensures event !in old(events) ==> events == old(events)
    {
      if event !in events {
        return [];
      }
      var snapshot := events[event];
      called := RunListeners(event, snapshot);
      DropOnceFresh(snapshot, nextToken);
    }

    /** The `off(event, wrapper)` a `once` wrapper makes before calling
        its callback: removal by the wrapper's own identity. */
    method OffWrapper(event: string, token: nat)
      requires event in events
      modifies this
      ensures nextToken == old(nextToken)
      ensures events == old(events)[event := RemoveToken(old(events[event]), token)]
    {
      events := events[event := RemoveToken(events[event], token)];
    }

    /** The `forEach` of `emit` over the list as it was when the emit
        started: `off` replaces the live list, not the one iterated. */
    method RunListeners(event: string, snapshot: seq<Listener>) returns (called: seq<nat>)
      requires event in events && events[event] == snapshot
      requires FreshTokens(snapshot, nextToken)
      modifies this
      ensures nextToken == old(nextToken)
      ensures called == Callbacks(snapshot)
      ensures events == old(events)[event := DropOnce(snapshot)]
    {
      called := [];
      var i := 0;
      PendingEnds(snapshot);
      while i < |snapshot|
        invariant 0 <= i <= |snapshot|
        invariant nextToken == old(nextToken)
        invariant called == Callbacks(snapshot[..i])
        invariant events == old(events)[event := DropOnce(snapshot[..i]) + snapshot[i..]]
      {
        var cb := RunOne(event, snapshot, i);
        CallbacksSnoc(snapshot, i);
        called := called + [cb];
        i := i + 1;
      }
      assert snapshot[..i] == snapshot;
    }

    /** Listener `i` of the snapshot runs; if it is a `once` wrapper, it
        first removes itself from the live list. */
    method RunOne(event: string, snapshot: seq<Listener>, i: nat) returns (cb: nat)
      requires i < |snapshot| && FreshTokens(snapshot, nextToken)
      requires event in events && events[event] == DropOnce(snapshot[..i]) + snapshot[i..]
      modifies this
      ensures nextToken == old(nextToken) && cb == snapshot[i].cb
      ensures events == old(events)[event := DropOnce(snapshot[..i + 1]) + snapshot[i + 1..]]
    {
      var l := snapshot[i];
      EmitStep(snapshot, i, nextToken);
      if l.Wrapper? {
        OffWrapper(event, l.token);
      }
      cb := l.cb;
    }
  }

  lemma CallbacksSnoc(ls: seq<Listener>, i: nat)
    requires i < |ls|
    ensures Callbacks(ls[..i + 1]) == Callbacks(ls[..i]) + [ls[i].cb]
  {
    var a, b := Callbacks(ls[..i + 1]), Callbacks(ls[..i]) + [ls[i].cb];
    assert forall k :: 0 <= k < |a| ==> a[k] == b[k];
  }

  /** Before the first listener runs the live list is the snapshot; after
      the last, it is the snapshot without its `once` wrappers. */
  lemma PendingEnds(snapshot: seq<Listener>)
    ensures DropOnce(snapshot[..0]) + snapshot[0..] == snapshot
    ensures DropOnce(snapshot[..|snapshot|]) + snapshot[|snapshot|..] == DropOnce(snapshot)
  {
    assert snapshot[..|snapshot|] == snapshot && snapshot[|snapshot|..] == [];
    assert DropOnce(snapshot) + [] == DropOnce(snapshot);
    assert snapshot[..0] == [] && snapshot[0..] == snapshot;
  }

  /** One step of `emit`: running listener `i` of the snapshot, which, if
      it is a `once` wrapper, removes itself from the live list. */
  lemma EmitStep(snapshot: seq<Listener>, i: nat, bound: nat)
    requires i < |snapshot|
    requires FreshTokens(snapshot, bound)
    ensures var l := snapshot[i];
            var live := DropOnce(snapshot[..i]) + snapshot[i..];
            (if l.Wrapper? then RemoveToken(live, l.token) else live)
              == DropOnce(snapshot[..i + 1]) + snapshot[i + 1..]
  {
    var l := snapshot[i];
    assert snapshot[..i + 1] == snapshot[..i] + [l];
    DropOnceAppend(snapshot[..i], [l]);
    var done := DropOnce(snapshot[..i]);
    var rest := snapshot[i..];
    assert rest == [l] + snapshot[i + 1..];
    if l.Wrapper? {
      DropOnceKeepsPlain(snapshot[..i]);
      NoLaterToken(snapshot, i, bound);
      RemoveTokenSplit(done, rest, l.token);
    }
  }

  /** No listener after a `once` wrapper shares its token. */
  lemma NoLaterToken(snapshot: seq<Listener>, i: nat, bound: nat)
    requires i < |snapshot| && snapshot[i].Wrapper?
    requires FreshTokens(snapshot, bound)
    ensures forall x :: x in snapshot[i..][1..] ==> !(x.Wrapper? && x.token == snapshot[i].token)
  {
    var rest := snapshot[i..][1..];
    forall x | x in rest ensures !(x.Wrapper? && x.token == snapshot[i].token) {
      var j :| 0 <= j < |rest| && rest[j] == x;
      assert x == snapshot[i + 1 + j];
    }
  }

  /** Fresh tokens split into the head and the tail. */
  lemma FreshTail(ls: seq<Listener>, bound: nat)
    requires ls != [] && FreshTokens(ls, bound)
    ensures FreshTokens(ls[1..], bound)
    ensures ls[0].Wrapper? ==> ls[0].token < bound
    ensures forall x :: x in ls[1..] && x.Wrapper? && ls[0].Wrapper? ==> x.token != ls[0].token
  {
    var rest := ls[1..];
    assert forall k :: 0 <= k < |rest| ==> rest[k] == ls[k + 1];
  }

  /** A head with a fresh token of its own in front of a fresh tail. */
  lemma FreshCons(h: Listener, t: seq<Listener>, bound: nat)
    requires FreshTokens(t, bound)
    requires h.Wrapper? ==> h.token < bound
    requires forall x :: x in t && x.Wrapper? && h.Wrapper? ==> x.token != h.token
    ensures FreshTokens([h] + t, bound)
  {
    var r := [h] + t;
    assert forall k :: 1 <= k < |r| ==> r[k] == t[k - 1];
  }

  lemma {:induction false} RemoveCallbackSubset(ls: seq<Listener>, cb: nat, bound: nat)
    requires FreshTokens(ls, bound)
    ensures FreshTokens(RemoveCallback(ls, cb), bound)
  {
    if ls != [] {
      FreshTail(ls, bound);
      RemoveCallbackSubset(ls[1..], cb, bound);
      if ls[0].cb != cb {
        RemoveCallbackExact(ls[1..], cb);
        FreshCons(ls[0], RemoveCallback(ls[1..], cb), bound);
      }
    }
  }

  lemma {:induction false} RemoveAsWrittenFresh(ls: seq<Listener>, cb: nat, bound: nat)
    requires FreshTokens(ls, bound)
    ensures FreshTokens(RemoveAsWritten(ls, cb), bound)
  {
    if ls != [] {
      FreshTail(ls, bound);
      RemoveAsWrittenFresh(ls[1..], cb, bound);
      if ls[0] != Plain(cb) {
        FreshCons(ls[0], RemoveAsWritten(ls[1..], cb), bound);
      }
    }
  }

  /** Emitting keeps the tokens fresh: only `on` listeners are left. */
  lemma DropOnceFresh(ls: seq<Listener>, bound: nat)
    ensures FreshTokens(DropOnce(ls), bound)
  {
    var d := DropOnce(ls);
    DropOnceKeepsPlain(ls);
    assert forall k :: 0 <= k < |d| ==> d[k] in d;
  }
}
