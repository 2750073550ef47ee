/**
 The table in which dpkg interns names and versions: open addressing with a second hash as
 step. The step is never zero and the size is a prime, so a probe reaches every slot.
 */
module NameTable {
  import opened Sums
  import opened Ascii
  import opened Primes

  const NAME_HASH_PRIME := 16381

  // ----- make_hash -----

  /** The hash of the first n characters, in 32 bits. */
  function HashOf(key: seq<Char>, n: nat): (h: nat)
    requires 1 <= n
    ensures h < TWO_32
  {
    if n == 1 then At(key, 0)
    else (HashOf(key, n - 1) + (At(key, n - 1) + At(key, n - 2)) * Pow2(At(key, n - 1) * (n - 1) % 24)) % TWO_32
  }

  function Hash(key: seq<Char>): (h: nat)
    ensures h < TWO_32
  {
    HashOf(key, if |key| == 0 then 1 else |key|)
  }

  function Start(key: seq<Char>, prime: nat): (s: nat)
    requires prime >= 2
    ensures s < prime
  {
    Hash(key) % prime
  }

  function Step(key: seq<Char>, prime: nat): (d: nat)
    requires prime >= 2
    ensures 1 <= d < prime
  {
    1 + Hash(key) % (prime - 1)
  }

  /** make_hash. */
  method MakeHash(key: seq<Char>, prime: nat) returns (start: nat, decrement: nat)
    requires prime >= 2
    ensures start == Start(key, prime) && decrement == Step(key, prime)
  {
    hide HashOf;
    HashStart(key);
    var hash := At(key, 0);
    var i := 1;
    while i < |key|
      invariant 1 <= i && (|key| > 0 ==> i <= |key|) && (|key| == 0 ==> i == 1) && hash == HashOf(key, i)
    {
      HashNext(key, i);
      hash := (hash + (At(key, i) + At(key, i - 1)) * Pow2(At(key, i) * i % 24)) % TWO_32;
      i := i + 1;
    }
    start := hash % prime;
    decrement := 1 + hash % (prime - 1);
  }

  lemma {:induction false} HashStart(key: seq<Char>)
    ensures HashOf(key, 1) == At(key, 0)
  {
  }

  lemma {:induction false} HashNext(key: seq<Char>, i: nat)
    requires i >= 1
    ensures HashOf(key, i + 1) == (HashOf(key, i) + (At(key, i) + At(key, i - 1)) * Pow2(At(key, i) * i % 24)) % TWO_32
  {
  }

  // ----- probing -----

  /** The slot looked at after k steps. */
  function Probe(key: seq<Char>, k: nat): (a: nat)
    ensures a < NAME_HASH_PRIME
  {
    if k == 0 then Start(key, NAME_HASH_PRIME)
    else
      var a := Probe(key, k - 1) - Step(key, NAME_HASH_PRIME);
      if a < 0 then a + NAME_HASH_PRIME else a
  }

  /** Slots are counted down modulo the prime. */
  lemma {:induction false} ProbeDistance(key: seq<Char>, k: nat, n: nat) returns (q: int)
    ensures Probe(key, k) - Probe(key, k + n) == n * Step(key, NAME_HASH_PRIME) - q * NAME_HASH_PRIME && q >= 0
    decreases n
  {
    if n == 0 {
      q := 0;
    } else {
      var p := ProbeDistance(key, k, n - 1);
      assert Probe(key, k + n - 1) - Step(key, NAME_HASH_PRIME) == Probe(key, k + n)
             || Probe(key, k + n - 1) - Step(key, NAME_HASH_PRIME) + NAME_HASH_PRIME == Probe(key, k + n);
      Distribute(n - 1, 1, Step(key, NAME_HASH_PRIME));
      q := if Probe(key, k + n - 1) - Step(key, NAME_HASH_PRIME) == Probe(key, k + n) then p else p + 1;
    }
  }

  lemma {:induction false} TableSizeIsPrime()
    ensures Prime(NAME_HASH_PRIME)
  {
    forall d | 2 <= d < 128 ensures !Divides(d, NAME_HASH_PRIME) {
      NoSmallDivisor(d);
    }
    PrimeBySqrt(NAME_HASH_PRIME, 127);
  }

  lemma {:induction false} NoSmallDivisor(d: nat)
    requires 2 <= d < 128
    ensures NAME_HASH_PRIME % d != 0
  {
  }

  /** The first NAME_HASH_PRIME probes are all different. */
  lemma {:induction false} ProbesDiffer(key: seq<Char>, k: nat, m: nat)
    requires k < m < NAME_HASH_PRIME
    ensures Probe(key, k) != Probe(key, m)
  {
    hide Probe, Prime, Divides;
    var n, d := m - k, Step(key, NAME_HASH_PRIME);
    var q := ProbeDistance(key, k, n);
    if Probe(key, k) == Probe(key, m) {
      TableSizeIsPrime();
      assert n * d == NAME_HASH_PRIME * q;
      ProductDivides(NAME_HASH_PRIME, q);
      Euclid(NAME_HASH_PRIME, n, d);
      if Divides(NAME_HASH_PRIME, n) {
        DivisorIsSmaller(NAME_HASH_PRIME, n);
      } else {
        DivisorIsSmaller(NAME_HASH_PRIME, d);
      }
    }
  }

  /** The slots visited by the first n probes. */
  ghost function Visited(key: seq<Char>, n: nat): set<nat>
  {
    if n == 0 then {} else Visited(key, n - 1) + {Probe(key, n - 1)}
  }

  lemma {:induction false} VisitedBy(key: seq<Char>, n: nat, a: nat) returns (k: nat)
    requires a in Visited(key, n)
    ensures k < n && Probe(key, k) == a
  {
    hide Probe;
    if a in Visited(key, n - 1) {
      k := VisitedBy(key, n - 1, a);
    } else {
      k := n - 1;
    }
  }

  lemma {:induction false} VisitedSize(key: seq<Char>, n: nat)
    requires n <= NAME_HASH_PRIME
    ensures |Visited(key, n)| == n
  {
    hide Probe;
    if n > 0 {
      VisitedSize(key, n - 1);
      if Probe(key, n - 1) in Visited(key, n - 1) {
        var k := VisitedBy(key, n - 1, Probe(key, n - 1));
        ProbesDiffer(key, k, n - 1);
      }
    }
  }

  ghost function Below(n: nat): (s: set<nat>)
    ensures (forall x: nat :: x in s <==> x < n) && |s| == n
  {
    if n == 0 then {} else Below(n - 1) + {n - 1}
  }

  lemma {:induction false} FullSubset(s: set<nat>, t: set<nat>)
    requires s <= t && |s| == |t|
    ensures s == t
  {
    assert |t - s| == |t| - |s|;
  }

  /** A probe sequence reaches every slot. */
  lemma {:induction false} ProbeReaches(key: seq<Char>, a: nat) returns (k: nat)
    requires a < NAME_HASH_PRIME
    ensures k < NAME_HASH_PRIME && Probe(key, k) == a
  {
    hide Probe;
    var s, t := Visited(key, NAME_HASH_PRIME), Below(NAME_HASH_PRIME);
    forall x | x in s ensures x in t {
      var j := VisitedBy(key, NAME_HASH_PRIME, x);
    }
    VisitedSize(key, NAME_HASH_PRIME);
    FullSubset(s, t);
    k := VisitedBy(key, NAME_HASH_PRIME, a);
  }

  // ----- the table -----

  type Slots = seq<Option<seq<Char>>>

  /** Slot a holds a name, and every slot before it on the name's way holds another one. */
  ghost predicate Placed(t: Slots, a: nat, k: nat)
  {
    && a < NAME_HASH_PRIME < |t| && t[a].Some? && Probe(t[a].value, k) == a
    && forall j :: 0 <= j < k ==> Taken(t, t[a].value, j)
  }

  /** The slot after j steps holds another name. */
  ghost predicate Taken(t: Slots, key: seq<Char>, j: nat)
  {
    NAME_HASH_PRIME < |t| && t[Probe(key, j)].Some? && t[Probe(key, j)].value != key
  }

  /** Every name in the table can be found. */
  ghost predicate Valid(t: Slots)
  {
    NAME_HASH_PRIME < |t| && forall a :: 0 <= a < NAME_HASH_PRIME && t[a].Some? ==> exists k: nat :: Placed(t, a, k)
  }

  /** No name stands in two slots. */
  lemma {:induction false} NamesDistinct(t: Slots, a: nat, b: nat)
    requires Valid(t) && a < NAME_HASH_PRIME && b < NAME_HASH_PRIME && t[a].Some? && t[a] == t[b]
    ensures a == b
  {
    hide Probe;
    var k: nat :| Placed(t, a, k);
    var m: nat :| Placed(t, b, m);
    assert !Taken(t, t[b].value, k) && !Taken(t, t[a].value, m);
  }

  /** A new name in the free slot that its probe has reached. */
  lemma {:induction false} AddName(t: Slots, key: seq<Char>, k: nat)
    requires Valid(t) && t[Probe(key, k)] == None && forall j :: 0 <= j < k ==> Taken(t, key, j)
    ensures Valid(t[Probe(key, k) := Some(key)])
  {
    hide Probe;
    var r := Probe(key, k);
    var u := t[r := Some(key)];
    forall a | 0 <= a < NAME_HASH_PRIME && u[a].Some? ensures exists n: nat :: Placed(u, a, n) {
      if a == r {
        forall j | 0 <= j < k ensures Taken(u, key, j) {
          assert Taken(t, key, j);
        }
        assert Placed(u, a, k);
      } else {
        var n: nat :| Placed(t, a, n);
        forall j | 0 <= j < n ensures Taken(u, t[a].value, j) {
          assert Taken(t, t[a].value, j);
        }
        assert Placed(u, a, n);
      }
    }
  }

  /** Some slot is free or already holds the key. */
  ghost predicate Room(t: Slots, key: seq<Char>)
  {
    exists a :: 0 <= a < NAME_HASH_PRIME < |t| && (t[a].None? || t[a] == Some(key))
  }

  /** The search stops if and only if there is room: otherwise every probe, however many are
      made, meets another name. */
  lemma {:induction false} StopsExactly(t: Slots, key: seq<Char>)
    requires NAME_HASH_PRIME < |t|
    ensures Room(t, key) <==> exists k: nat :: k < NAME_HASH_PRIME && !Taken(t, key, k)
    ensures !Room(t, key) ==> forall k: nat :: Taken(t, key, k)
  {
    hide Probe;
    if Room(t, key) {
      var a :| 0 <= a < NAME_HASH_PRIME < |t| && (t[a].None? || t[a] == Some(key));
      var k := ProbeReaches(key, a);
      assert !Taken(t, key, k);
    } else {
      forall k: nat ensures Taken(t, key, k) {
        var a := Probe(key, k);
        assert !(t[a].None? || t[a] == Some(key));
      }
    }
  }

  class NameTable {
    const slots: array<Option<seq<Char>>>

    constructor ()
      ensures Valid(slots[..]) && fresh(slots) && forall a :: 0 <= a < slots.Length ==> slots[a] == None
    {
      slots := new Option<seq<Char>>[NAME_HASH_PRIME + 1](_ => None);
    }

    /** search_name_hashtable: the index of the key, which is added if it is new. Nothing else
        in the table changes. */
    method Search(key: seq<Char>) returns (r: nat)
      requires Valid(slots[..]) && Room(slots[..], key)
      modifies slots
      ensures Valid(slots[..]) && r < NAME_HASH_PRIME && slots[r] == Some(key)
      ensures slots[..] == old(slots[..]) || (old(slots[..])[r] == None && slots[..] == old(slots[..])[r := Some(key)])
      ensures (exists a :: 0 <= a < NAME_HASH_PRIME && old(slots[..])[a] == Some(key)) ==> slots[..] == old(slots[..])
    {
      hide Probe, Valid, Room;
      ghost var t, k := slots[..], 0;
      ValidSize(t);
      StopsExactly(t, key);
      ghost var last: nat :| last < NAME_HASH_PRIME && !Taken(t, key, last);
      var step;
      r, step := MakeHash(key, NAME_HASH_PRIME);
      ProbeStart(key);
      while slots[r] != None
        invariant slots[..] == t && r < NAME_HASH_PRIME && r == Probe(key, k) && 0 <= k <= last && step == Step(key, NAME_HASH_PRIME)
        invariant forall j :: 0 <= j < k ==> Taken(t, key, j)
        decreases last - k
      {
        if slots[r].value == key {
          return;
        }
        assert Taken(t, key, k);
        assert k != last;
        ProbeNext(key, k);
        var a := r - step;
        r := if a < 0 then a + NAME_HASH_PRIME else a;
        k := k + 1;
      }
      NotPresent(t, key, k);
      AddName(t, key, k);
      slots[r] := Some(key);
      assert slots[..] == t[r := Some(key)];
    }
  }

  lemma {:induction false} ValidSize(t: Slots)
    requires Valid(t)
    ensures NAME_HASH_PRIME < |t|
  {
  }

  lemma {:induction false} ProbeStart(key: seq<Char>)
    ensures Probe(key, 0) == Start(key, NAME_HASH_PRIME)
  {
  }

  lemma {:induction false} ProbeNext(key: seq<Char>, k: nat)
    ensures var a := Probe(key, k) - Step(key, NAME_HASH_PRIME);
            Probe(key, k + 1) == if a < 0 then a + NAME_HASH_PRIME else a
  {
  }

  /** A name whose probe meets a free slot is not in the table. */
  lemma {:induction false} NotPresent(t: Slots, key: seq<Char>, k: nat)
    requires Valid(t) && t[Probe(key, k)] == None && forall j :: 0 <= j < k ==> Taken(t, key, j)
    ensures forall a :: 0 <= a < NAME_HASH_PRIME ==> t[a] != Some(key)
  {
    hide Probe;
    forall a | 0 <= a < NAME_HASH_PRIME ensures t[a] != Some(key) {
      if t[a] == Some(key) {
        PresentIsMet(t, key, k, a);
      }
    }
  }

  /** The probe of a name in the table meets no free slot before it meets the name. */
  lemma {:induction false} PresentIsMet(t: Slots, key: seq<Char>, k: nat, a: nat)
    requires Valid(t) && a < NAME_HASH_PRIME && t[a] == Some(key) && forall j :: 0 <= j < k ==> Taken(t, key, j)
    ensures t[Probe(key, k)] != None
  {
    hide Probe;
    var n: nat :| Placed(t, a, n);
    assert !Taken(t, key, n);
    assert k < n ==> Taken(t, key, k);
  }

  // ----- runs of calls -----

  ghost function Occupied(t: Slots): set<nat>
    requires NAME_HASH_PRIME < |t|
  {
    set a: nat | a < NAME_HASH_PRIME && t[a].Some?
  }

  lemma {:induction false} RoomLeft(t: Slots, key: seq<Char>)
    requires NAME_HASH_PRIME < |t| && |Occupied(t)| < NAME_HASH_PRIME
    ensures Room(t, key)
  {
    var all, occupied := Below(NAME_HASH_PRIME), Occupied(t);
    assert occupied <= all;
    assert |all - occupied| == |all| - |occupied|;
    var a :| a in all - occupied;
    assert t[a].None?;
  }

  lemma {:induction false} OneMoreName(t: Slots, u: Slots, r: nat, key: seq<Char>)
    requires NAME_HASH_PRIME < |t| && r < NAME_HASH_PRIME && (u == t || u == t[r := Some(key)])
    ensures |u| == |t| && |Occupied(u)| <= |Occupied(t)| + 1
  {
    assert Occupied(u) <= Occupied(t) + {r};
    SubsetSize(Occupied(u), Occupied(t) + {r});
  }

  lemma {:induction false} SubsetSize(s: set<nat>, t: set<nat>)
    requires s <= t
    ensures |s| <= |t|
  {
    assert |t - s| == |t| - |s|;
  }

  /** The first n indices name the first n keys. */
  ghost predicate Names(t: Slots, ids: seq<nat>, keys: seq<seq<Char>>)
  {
    |ids| <= |keys| && NAME_HASH_PRIME < |t| && forall i :: 0 <= i < |ids| ==> ids[i] < NAME_HASH_PRIME && t[ids[i]] == Some(keys[i])
  }

  /** Over any run of calls for which the table is large enough, indices are equal exactly when
      the strings are, and all of them still name their strings at the end. */
  method SearchAll(names: NameTable, keys: seq<seq<Char>>) returns (ids: seq<nat>)
    requires Valid(names.slots[..]) && names.slots.Length > NAME_HASH_PRIME && |Occupied(names.slots[..])| + |keys| <= NAME_HASH_PRIME
    modifies names.slots
    ensures Valid(names.slots[..]) && |ids| == |keys| && Names(names.slots[..], ids, keys)
    ensures forall i, j :: 0 <= i < |keys| && 0 <= j < |keys| ==> (ids[i] == ids[j] <==> keys[i] == keys[j])
    ensures forall a :: 0 <= a < NAME_HASH_PRIME && old(names.slots[..])[a].Some? ==> names.slots[a] == old(names.slots[..])[a]
  {
    hide Valid, Room, Occupied;
    ids := [];
    ghost var t0 := names.slots[..];
    for n := 0 to |keys|
      invariant Valid(names.slots[..]) && |ids| == n && Names(names.slots[..], ids, keys)
      invariant |Occupied(names.slots[..])| <= |Occupied(t0)| + n
      invariant forall a :: 0 <= a < NAME_HASH_PRIME && t0[a].Some? ==> names.slots[a] == t0[a]
    {
      ghost var t := names.slots[..];
      RoomLeft(t, keys[n]);
      var r := names.Search(keys[n]);
      OneMoreName(t, names.slots[..], r, keys[n]);
      ids := ids + [r];
    }
    SameNames(names.slots[..], ids, keys);
  }

  lemma {:induction false} SameNames(t: Slots, ids: seq<nat>, keys: seq<seq<Char>>)
    requires Valid(t) && |ids| == |keys| && Names(t, ids, keys)
    ensures forall i, j :: 0 <= i < |keys| && 0 <= j < |keys| ==> (ids[i] == ids[j] <==> keys[i] == keys[j])
  {
    hide Valid;
    forall i, j | 0 <= i < |keys| && 0 <= j < |keys| ensures ids[i] == ids[j] <==> keys[i] == keys[j] {
      if keys[i] == keys[j] {
        NamesDistinct(t, ids[i], ids[j]);
      }
    }
  }
}
