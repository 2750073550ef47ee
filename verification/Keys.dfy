/**
 The key events of the doom port: a terminal only reports key presses, so a key counts as held
 from its first report until no report has come for some time. Presses wait in a ring, releases
 are made up when the ring is empty.
 */
module Keys {
  import opened Sums

  const HELD_MAX := 16
  const RING := 64

  datatype Held = Held(key: byte, last: nat)

  datatype Event = Event(pressed: bool, key: byte)

  // ----- the ring -----

  function RingCount(h: nat, t: nat): (n: nat)
    requires h < RING && t < RING
    ensures n < RING
  {
    if t >= h then t - h else t + RING - h
  }

  /** The place of entry i behind the head. */
  function Slot(h: nat, i: nat): (p: nat)
    ensures p < RING
  {
    (h + i) % RING
  }

  /** The entries between head and tail. */
  function Waiting(q: seq<byte>, h: nat, t: nat): (s: seq<byte>)
    requires |q| == RING && h < RING && t < RING
    ensures |s| == RingCount(h, t)
  {
    seq(RingCount(h, t), i requires 0 <= i < RingCount(h, t) => q[Slot(h, i)])
  }

  lemma {:induction false} RingPush(q: seq<byte>, h: nat, t: nat, k: byte)
    requires |q| == RING && h < RING && t < RING && RingCount(h, t) < RING - 1
    ensures (t + 1) % RING != h && Waiting(q[t := k], h, (t + 1) % RING) == Waiting(q, h, t) + [k]
  {
    var n, u := RingCount(h, t), (t + 1) % RING;
    assert RingCount(h, u) == n + 1 && Slot(h, n) == t;
    forall i | 0 <= i < n ensures Slot(h, i) != t {
    }
    assert Waiting(q[t := k], h, u) == Waiting(q, h, t) + [k];
  }

  lemma {:induction false} RingPop(q: seq<byte>, h: nat, t: nat)
    requires |q| == RING && h < RING && t < RING && h != t
    ensures Waiting(q, h, t) == [q[h]] + Waiting(q, (h + 1) % RING, t)
  {
    var n, g := RingCount(h, t), (h + 1) % RING;
    assert RingCount(g, t) == n - 1;
    forall i | 0 <= i < n - 1 ensures Slot(g, i) == Slot(h, i + 1) {
    }
    assert Waiting(q, h, t) == [q[h]] + Waiting(q, g, t);
  }

  // ----- what has been delivered -----

  /** Whether the last event for the key was a press. */
  function Down(log: seq<Event>, k: byte): bool
  {
    if log == [] then false
    else if log[|log| - 1].key == k then log[|log| - 1].pressed
    else Down(log[..|log| - 1], k)
  }

  /** For each key the events alternate, and the first is a press. */
  predicate Alternates(log: seq<Event>)
  {
    if log == [] then true
    else
      var init, e := log[..|log| - 1], log[|log| - 1];
      Alternates(init) && (e.pressed <==> !Down(init, e.key))
  }

  /** The keys of the presses, in order. */
  function Presses(log: seq<Event>): seq<byte>
  {
    if log == [] then []
    else Presses(log[..|log| - 1]) + (if log[|log| - 1].pressed then [log[|log| - 1].key] else [])
  }

  lemma {:induction false} LogStep(log: seq<Event>, e: Event)
    ensures Alternates(log + [e]) <==> Alternates(log) && (e.pressed <==> !Down(log, e.key))
    ensures Presses(log + [e]) == Presses(log) + (if e.pressed then [e.key] else [])
    ensures forall k :: Down(log + [e], k) == if e.key == k then e.pressed else Down(log, k)
  {
    assert (log + [e])[..|log|] == log;
  }

  // ----- the invariant -----

  ghost predicate Distinct(s: seq<byte>)
  {
    forall i, j :: 0 <= i < j < |s| ==> s[i] != s[j]
  }

  function KeysOf(held: seq<Held>): (s: seq<byte>)
    ensures |s| == |held|
  {
    seq(|held|, i requires 0 <= i < |held| => held[i].key)
  }

  /** Pending presses are distinct and all held; a key is down for the game exactly when it is
      held and its press is not pending; delivered and pending presses together are the touches
      in their order. */
  ghost predicate Consistent(keys: seq<byte>, pending: seq<byte>, log: seq<Event>, touched: seq<byte>)
  {
    && Distinct(keys) && Distinct(pending) && (forall i :: 0 <= i < |pending| ==> pending[i] in keys)
    && Alternates(log) && (forall k :: Down(log, k) <==> k in keys && k !in pending)
    && Presses(log) + pending == touched
  }

  /** As many pending presses as held keys at most. */
  lemma {:induction false} PendingBound(keys: seq<byte>, pending: seq<byte>)
    requires Distinct(keys) && Distinct(pending) && forall i :: 0 <= i < |pending| ==> pending[i] in keys
    ensures |pending| <= |keys|
  {
    var a, b := set i | 0 <= i < |pending| :: pending[i], set i | 0 <= i < |keys| :: keys[i];
    SetSize(pending, a);
    SetSize(keys, b);
    assert a <= b;
    assert |b - a| == |b| - |a|;
  }

  lemma {:induction false} SetSize(s: seq<byte>, t: set<byte>)
    requires Distinct(s) && t == set i | 0 <= i < |s| :: s[i]
    ensures |t| == |s|
  {
    if s != [] {
      var init, x := s[..|s| - 1], s[|s| - 1];
      var u := set i | 0 <= i < |init| :: init[i];
      SetSize(init, u);
      assert t == u + {x};
    }
  }

  /** A new key is held and its press waits. */
  lemma {:induction false} TouchNew(keys: seq<byte>, pending: seq<byte>, log: seq<Event>, touched: seq<byte>, k: byte)
    requires Consistent(keys, pending, log, touched) && k !in keys
    ensures Consistent(keys + [k], pending + [k], log, touched + [k])
  {
    assert Presses(log) + (pending + [k]) == (Presses(log) + pending) + [k];
  }

  /** The first pending press is delivered. */
  lemma {:induction false} DeliverPress(keys: seq<byte>, pending: seq<byte>, log: seq<Event>, touched: seq<byte>, k: byte, rest: seq<byte>)
    requires Consistent(keys, pending, log, touched) && pending == [k] + rest
    ensures Consistent(keys, rest, log + [Event(true, k)], touched)
  {
    hide Alternates, Down, Presses;
    LogStep(log, Event(true, k));
    WithoutFirst(keys, pending, k, rest);
    hide Distinct;
    assert Presses(log) + pending == (Presses(log) + [k]) + rest;
  }

  lemma {:induction false} WithoutFirst(keys: seq<byte>, pending: seq<byte>, k: byte, rest: seq<byte>)
    requires pending == [k] + rest && Distinct(pending) && forall i :: 0 <= i < |pending| ==> pending[i] in keys
    ensures Distinct(rest) && k !in rest && k in keys && (forall i :: 0 <= i < |rest| ==> rest[i] in keys)
    ensures forall x :: x in pending <==> x == k || x in rest
  {
    assert pending[0] == k;
    forall i | 0 <= i < |rest| ensures rest[i] != k && rest[i] in keys {
      assert rest[i] == pending[i + 1];
    }
    forall i, j | 0 <= i < j < |rest| ensures rest[i] != rest[j] {
      assert rest[i] == pending[i + 1] && rest[j] == pending[j + 1];
    }
  }

  /** With no press pending, a held key is released; the last entry takes its place. */
  lemma {:induction false} DeliverRelease(keys: seq<byte>, log: seq<Event>, touched: seq<byte>, i: nat)
    requires Consistent(keys, [], log, touched) && i < |keys|
    ensures Consistent(keys[i := keys[|keys| - 1]][..|keys| - 1], [], log + [Event(false, keys[i])], touched)
  {
    var k, n := keys[i], |keys| - 1;
    var rest := keys[i := keys[n]][..n];
    LogStep(log, Event(false, k));
    forall x ensures x in rest <==> x in keys && x != k {
      if x in keys && x != k {
        var j :| 0 <= j < |keys| && keys[j] == x;
        assert rest[if j == n then i else j] == x;
      }
    }
  }

  /** No report for longer than holdMs, in 32-bit arithmetic. */
  predicate Expired(h: Held, now: nat, holdMs: nat)
  {
    (now - h.last) % TWO_32 > holdMs
  }

  /** Entry i is the first that has expired. */
  ghost predicate FirstExpired(held: seq<Held>, now: nat, holdMs: nat, i: nat)
  {
    i < |held| && Expired(held[i], now, holdMs) && forall j :: 0 <= j < i ==> !Expired(held[j], now, holdMs)
  }

  /** What is left of the held keys when entry i is released. */
  function Released(held: seq<Held>, i: nat): seq<Held>
    requires i < |held|
  {
    held[i := held[|held| - 1]][..|held| - 1]
  }

  /** The held keys after a report of k. */
  ghost predicate Reported(before: seq<Held>, after: seq<Held>, k: byte, now: nat)
  {
    if k in KeysOf(before) then
      exists i :: 0 <= i < |before| && before[i].key == k && after == before[i := Held(k, now)]
    else if |before| < HELD_MAX then after == before + [Held(k, now)]
    else after == before
  }

  class Keyboard {
    const held: array<Held>
    var nheld: nat
    const evq: array<byte>
    var evh: nat
    var evt: nat
    const holdMs: nat
    ghost var log: seq<Event>      // events returned by DG_GetKey
    ghost var touched: seq<byte>   // keys that became held, in order

    ghost predicate Valid()
      reads this, held, evq
    {
      && held.Length == HELD_MAX && evq.Length == RING && nheld <= HELD_MAX && evh < RING && evt < RING
      && Consistent(KeysOf(held[..nheld]), Waiting(evq[..], evh, evt), log, touched)
    }

    constructor (holdMs: nat)
      ensures Valid() && log == [] && touched == [] && nheld == 0 && this.holdMs == holdMs
    {
      held := new Held[HELD_MAX](_ => Held(0, 0));
      evq := new byte[RING](_ => 0);
      nheld, evh, evt, this.holdMs := 0, 0, 0, holdMs;
      log, touched := [], [];
    }

    /** ev_push: the ring has room, since only held keys wait in it. */
    method EvPush(k: byte)
      requires held.Length == HELD_MAX && evq.Length == RING && evh < RING && evt < RING && RingCount(evh, evt) < RING - 1
      modifies this`evt, evq
      ensures evt < RING && Waiting(evq[..], evh, evt) == old(Waiting(evq[..], evh, evt)) + [k]
    {
      RingPush(evq[..], evh, evt, k);
      var nt := (evt + 1) % RING;
      if nt != evh {
        evq[evt] := k;
        evt := nt;
      }
    }

    /** key_touch: a held key is only renewed; a new one is held and its press is queued, never
        dropped, unless all places are taken. */
    method KeyTouch(k: byte, now: nat)
      requires Valid()
      modifies this`nheld, this`evt, this`touched, held, evq
      ensures Valid() && log == old(log) && Reported(old(held[..nheld]), held[..nheld], k, now)
      ensures touched == if k in KeysOf(old(held[..nheld])) || old(nheld) == HELD_MAX then old(touched) else old(touched) + [k]
    {
      hide Consistent, Waiting;
      ghost var keys, pending := KeysOf(held[..nheld]), Waiting(evq[..], evh, evt);
      for i := 0 to nheld
        invariant held[..nheld] == old(held[..nheld]) && evq[..] == old(evq[..]) && forall j :: 0 <= j < i ==> held[j].key != k
      {
        if held[i].key == k {
          assert keys[i] == k;
          held[i] := Held(k, now);
          assert KeysOf(held[..nheld]) == keys;
          assert held[..nheld] == old(held[..nheld])[i := Held(k, now)];
          return;
        }
      }
      NotHeld(held[..nheld], k);
      if nheld < HELD_MAX {
        ConsistentBound(keys, pending, log, touched);
        held[nheld] := Held(k, now);
        nheld := nheld + 1;
        assert held[..nheld] == old(held[..nheld]) + [Held(k, now)];
        assert KeysOf(held[..nheld]) == keys + [k];
        EvPush(k);
        TouchNew(keys, pending, log, touched, k);
        touched := touched + [k];
      }
    }

    /** DG_GetKey after the input has been read: queued presses first, then one release of a key
        that has not been reported for longer than holdMs, in 32-bit arithmetic. */
    method GetKey(now: nat) returns (got: bool, pressed: bool, key: byte)
      requires Valid()
      modifies this`nheld, this`evh, this`log, held
      ensures Valid() && touched == old(touched)
      ensures log == if got then old(log) + [Event(pressed, key)] else old(log)
      ensures old(evh) != evt ==> got && pressed && key == old(evq[evh]) && held[..nheld] == old(held[..nheld])
      ensures old(evh) == evt ==> evh == evt && !(got && pressed)
      ensures got && !pressed ==> exists i: nat :: && FirstExpired(old(held[..nheld]), now, holdMs, i) && key == old(held[..nheld])[i].key
                                              && held[..nheld] == Released(old(held[..nheld]), i)
      ensures !got ==> held[..nheld] == old(held[..nheld]) && forall i :: 0 <= i < nheld ==> !Expired(held[i], now, holdMs)
    {
      hide Consistent, Waiting;
      ghost var keys, pending := KeysOf(held[..nheld]), Waiting(evq[..], evh, evt);
      got, pressed, key := false, false, 0;
      if evh != evt {
        RingPop(evq[..], evh, evt);
        DeliverPress(keys, pending, log, touched, evq[evh], Waiting(evq[..], (evh + 1) % RING, evt));
        got, pressed, key := true, true, evq[evh];
        evh := (evh + 1) % RING;
        log := log + [Event(true, key)];
        return;
      }
      NoneWaiting(evq[..], evh);
      for i := 0 to nheld
        invariant held[..nheld] == old(held[..nheld]) && forall j :: 0 <= j < i ==> !Expired(held[j], now, holdMs)
      {
        if (now - held[i].last) % TWO_32 > holdMs {
          assert FirstExpired(held[..nheld], now, holdMs, i);
          DeliverRelease(keys, log, touched, i);
          got, pressed, key := true, false, held[i].key;
          ghost var before := held[..nheld];
          nheld := nheld - 1;
          held[i] := held[nheld];
          assert held[..nheld] == Released(before, i);
          SwapRemoved(before, i);
          log := log + [Event(false, key)];
          return;
        }
      }
    }
  }

  lemma {:induction false} NotHeld(held: seq<Held>, k: byte)
    requires forall j :: 0 <= j < |held| ==> held[j].key != k
    ensures k !in KeysOf(held)
  {
  }

  lemma {:induction false} NoneWaiting(q: seq<byte>, h: nat)
    requires |q| == RING && h < RING
    ensures Waiting(q, h, h) == []
  {
  }

  lemma {:induction false} SwapRemoved(held: seq<Held>, i: nat)
    requires i < |held|
    ensures KeysOf(Released(held, i)) == KeysOf(held)[i := KeysOf(held)[|held| - 1]][..|held| - 1]
  {
  }

  lemma {:induction false} ConsistentBound(keys: seq<byte>, pending: seq<byte>, log: seq<Event>, touched: seq<byte>)
    requires Consistent(keys, pending, log, touched)
    ensures |pending| <= |keys|
  {
    PendingBound(keys, pending);
  }

  /** What every reachable state guarantees: each key's delivered events alternate, starting with
      a press, and the presses delivered so far are the first touches in their order. */
  lemma {:induction false} Delivered(keys: seq<byte>, pending: seq<byte>, log: seq<Event>, touched: seq<byte>)
    requires Consistent(keys, pending, log, touched)
    ensures Alternates(log) && Presses(log) <= touched && |touched| - |Presses(log)| <= |keys|
  {
    PendingBound(keys, pending);
  }
}
