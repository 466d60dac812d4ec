/**
 Extranonce prefixes of extended channels (src/models/sv2/sv2-extranonce-manager.ts):
 a scan with wrap-around for a free prefix, release, and the prefix's octets.
 */
module ExtranonceManager {
  import opened Bytes

  /** `next` is where the following scan begins; prefixes run from 1 to `max`. */
  datatype State = State(max: nat, next: nat, owners: map<nat, nat>, used: set<nat>)

  function MaxPrefix(prefixSize: nat): nat
    requires prefixSize >= 2
  {
    Pow256(prefixSize - 1) - 1
  }

  function Start(max: nat): State { State(max, 1, map[], {}) }

  // ---- the scan ----

  function After(p: nat, max: nat): nat
  {
    if p + 1 > max then 1 else p + 1
  }

  /** The loop: at most `steps` moves past used prefixes. */
  function Scan(used: set<nat>, max: nat, p: nat, steps: nat): Option<nat>
    decreases steps
  {
    if p !in used then Some(p)
    else if steps == 0 then None
    else Scan(used, max, After(p, max), steps - 1)
  }

  /** How many moves lead from one prefix to another. */
  function Distance(p: nat, q: nat, max: nat): int
  {
    if q >= p then q - p else q - p + max
  }

  lemma {:induction false} ScanIsFirstFree(used: set<nat>, max: nat, p: nat, steps: nat)
    requires 1 <= p <= max
    ensures
      match Scan(used, max, p, steps)
      case Some(q) =>
        && 1 <= q <= max && q !in used
        && forall v :: 1 <= v <= max && Distance(p, v, max) < Distance(p, q, max) ==> v in used
      case None => forall v :: 1 <= v <= max && Distance(p, v, max) <= steps ==> v in used
    decreases steps
  {
    if p in used && steps > 0 {
      ScanIsFirstFree(used, max, After(p, max), steps - 1);
      forall v | 1 <= v <= max && v != p
        ensures Distance(After(p, max), v, max) == Distance(p, v, max) - 1
      {
      }
    }
  }

  /** The scan fails exactly when every prefix is taken. */
  lemma ScanFailsIffFull(used: set<nat>, max: nat, p: nat)
    requires 1 <= p <= max
    ensures Scan(used, max, p, max + 1).None? <==> forall v :: 1 <= v <= max ==> v in used
  {
    ScanIsFirstFree(used, max, p, max + 1);
    if Scan(used, max, p, max + 1).None? {
      forall v | 1 <= v <= max ensures v in used {
        assert Distance(p, v, max) <= max;
      }
    }
  }

  // ---- allocate and release ----

  datatype Event = Allocate(channel: nat) | Release(channel: nat)

  function AllocateStep(s: State, channel: nat): (State, Option<nat>)
  {
    if channel in s.owners then (s, Some(s.owners[channel]))
    else
      var found := Scan(s.used, s.max, s.next, s.max + 1);
      if found.None? then (s, None)
      else
        (State(s.max, After(found.value, s.max), s.owners[channel := found.value], s.used + {found.value}), found)
  }

  function ReleaseStep(s: State, channel: nat): State
  {
    if channel in s.owners then s.(owners := s.owners - {channel}, used := s.used - {s.owners[channel]}) else s
  }

  function Step(s: State, e: Event): State
  {
    match e
    case Allocate(c) => AllocateStep(s, c).0
    case Release(c) => ReleaseStep(s, c)
  }

  function Run(s: State, events: seq<Event>): State
    decreases |events|
  {
    if events == [] then s else Run(Step(s, events[0]), events[1..])
  }

  ghost predicate Injective(m: map<nat, nat>)
  {
    forall c, d :: c in m && d in m && m[c] == m[d] ==> c == d
  }

  /** The used set is exactly what the channels own, each its own prefix, all in range. */
  ghost predicate Inv(s: State)
  {
    && 1 <= s.next <= s.max
    && Injective(s.owners)
    && (forall c :: c in s.owners ==> 1 <= s.owners[c] <= s.max && s.owners[c] in s.used)
    && (forall p :: p in s.used ==> exists c :: c in s.owners && s.owners[c] == p)
  }

  lemma OwnerAdded(s: State, channel: nat, p: nat, next: nat)
    requires Inv(s) && channel !in s.owners && 1 <= p <= s.max && p !in s.used && 1 <= next <= s.max
    ensures Inv(State(s.max, next, s.owners[channel := p], s.used + {p}))
  {
    var owners := s.owners[channel := p];
    assert forall c :: c in s.owners ==> owners[c] == s.owners[c] && s.owners[c] != p;
    forall q | q in s.used + {p} ensures exists c :: c in owners && owners[c] == q {
      if q == p {
        assert owners[channel] == p;
      } else {
        var c :| c in s.owners && s.owners[c] == q;
        assert owners[c] == q;
      }
    }
  }

  lemma AllocateKeeps(s: State, channel: nat)
    requires Inv(s)
    ensures Inv(AllocateStep(s, channel).0)
  {
    ScanIsFirstFree(s.used, s.max, s.next, s.max + 1);
    var found := Scan(s.used, s.max, s.next, s.max + 1);
    if channel !in s.owners && found.Some? {
      OwnerAdded(s, channel, found.value, After(found.value, s.max));
    }
  }

  lemma ReleaseKeeps(s: State, channel: nat)
    requires Inv(s)
    ensures Inv(ReleaseStep(s, channel))
  {
    var s' := ReleaseStep(s, channel);
    forall p | p in s'.used ensures exists c :: c in s'.owners && s'.owners[c] == p {
      var c :| c in s.owners && s.owners[c] == p;
      assert c in s'.owners;
    }
  }

  lemma {:induction false} RunKeeps(s: State, events: seq<Event>)
    requires Inv(s)
    ensures Inv(Run(s, events)) && Run(s, events).max == s.max
    decreases |events|
  {
    if events != [] {
      match events[0]
      case Allocate(c) => AllocateKeeps(s, c); RunKeeps(Step(s, events[0]), events[1..]);
      case Release(c) => ReleaseKeeps(s, c); RunKeeps(Step(s, events[0]), events[1..]);
    }
  }

  lemma {:induction false} OwnersCount(m: map<nat, nat>)
    requires Injective(m)
    ensures |m.Values| == |m|
  {
    if m != map[] {
      var c :| c in m;
      var rest := m - {c};
      OwnersCount(rest);
      assert m.Values == rest.Values + {m[c]} by {
        forall v | v in m.Values ensures v in rest.Values + {m[c]} {
          var d :| d in m && m[d] == v;
          assert d == c || d in rest;
        }
      }
      assert m[c] !in rest.Values;
      assert m.Keys == rest.Keys + {c};
    }
  }

  function Prefixes(n: nat): (r: set<nat>)
    ensures forall v :: v in r <==> 1 <= v <= n
    ensures |r| == n
  {
    if n == 0 then {} else Prefixes(n - 1) + {n}
  }

  lemma SubsetOfSameSize(a: set<nat>, b: set<nat>)
    requires a <= b && |a| == |b|
    ensures a == b
  {
    if a != b {
      var x :| x in b && x !in a;
      assert a <= b - {x};
      SubsetSize(a, b - {x});
    }
  }

  lemma {:induction false} SubsetSize(a: set<nat>, b: set<nat>)
    requires a <= b
    ensures |a| <= |b|
    decreases |a|
  {
    if a != {} {
      var x :| x in a;
      SubsetSize(a - {x}, b - {x});
    }
  }

  /** After any run, a new channel is refused if and only if as many channels are live as
      there are prefixes. */
  lemma RefusedIffFull(s: State, channel: nat)
    requires Inv(s)
    ensures AllocateStep(s, channel).1.None? <==> channel !in s.owners && |s.owners| == s.max
  {
    var all := Prefixes(s.max);
    OwnersCount(s.owners);
    assert s.used == s.owners.Values;
    ScanFailsIffFull(s.used, s.max, s.next);
    assert s.used <= all;
    if |s.owners| == s.max {
      SubsetOfSameSize(s.used, all);
    }
    if Scan(s.used, s.max, s.next, s.max + 1).None? {
      assert all == s.used;
    }
  }

  /** What an allocation does: a channel keeps its prefix; a new one gets the first free prefix
      from where the last scan ended, and the next scan begins behind it, at 1 after the last. */
  lemma AllocateMeans(s: State, channel: nat)
    requires Inv(s)
    ensures var (s', p) := AllocateStep(s, channel);
      && s'.max == s.max
      && (channel in s.owners ==> s' == s && p == Some(s.owners[channel]))
      && (channel !in s.owners && p.None? ==> s' == s && forall v :: 1 <= v <= s.max ==> v in s.used)
      && (channel !in s.owners && p.Some? ==>
            && 1 <= p.value <= s.max && p.value !in s.used
            && (forall v :: s.next <= v < p.value ==> v in s.used)
            && (p.value < s.next ==>
                  (forall v :: s.next <= v <= s.max ==> v in s.used) && forall v :: 1 <= v < p.value ==> v in s.used)
            && s'.owners == s.owners[channel := p.value] && s'.used == s.used + {p.value}
            && s'.next == if p.value == s.max then 1 else p.value + 1)
  {
    ScanIsFirstFree(s.used, s.max, s.next, s.max + 1);
    ScanFailsIffFull(s.used, s.max, s.next);
    var p := Scan(s.used, s.max, s.next, s.max + 1);
    if p.Some? {
      forall v | s.next <= v < p.value ensures v in s.used {
        assert Distance(s.next, v, s.max) < Distance(s.next, p.value, s.max);
      }
      if p.value < s.next {
        forall v | s.next <= v <= s.max ensures v in s.used {
          assert Distance(s.next, v, s.max) < Distance(s.next, p.value, s.max);
        }
        forall v | 1 <= v < p.value ensures v in s.used {
          assert Distance(s.next, v, s.max) < Distance(s.next, p.value, s.max);
        }
      }
    }
  }

  /** With the four octets the pool uses, of which the first stays zero, there are 2^24 - 1. */
  lemma PrefixesOfFour()
    ensures MaxPrefix(4) == 0xff_ffff
  {
    Powers();
  }

  // ---- the octets ----

  function BigEndian(v: nat, n: nat): (b: bytes)
    ensures |b| == n
  {
    if n == 0 then [] else BigEndian(v / 256, n - 1) + [v % 256]
  }

  /** The octets of a four-octet prefix, the most significant first. */
  lemma BigEndianOfFour(v: nat)
    requires v < 0x1_0000_0000
    ensures var b := BigEndian(v, 4);
      OctetAt(b, 3) + 256 * OctetAt(b, 2) + 65536 * OctetAt(b, 1) + 0x100_0000 * OctetAt(b, 0) == v
  {
    var b3, b2, b1 := BigEndian(v / 256, 3), BigEndian(v / 256 / 256, 2), BigEndian(v / 256 / 256 / 256, 1);
    assert BigEndian(v, 4) == b3 + [v % 256] && b3 == b2 + [v / 256 % 256] && b2 == b1 + [v / 256 / 256 % 256];
    assert b1 == BigEndian(v / 256 / 256 / 256 / 256, 0) + [v / 256 / 256 / 256 % 256];
  }

  lemma {:induction false} BigEndianBinds(v: nat, w: nat, n: nat)
    requires v < Pow256(n) && w < Pow256(n) && BigEndian(v, n) == BigEndian(w, n)
    ensures v == w
  {
    if n > 0 {
      var a, b := BigEndian(v, n), BigEndian(w, n);
      assert a[n - 1] == v % 256 && b[n - 1] == w % 256;
      assert a[..n - 1] == BigEndian(v / 256, n - 1) && b[..n - 1] == BigEndian(w / 256, n - 1);
      BigEndianBinds(v / 256, w / 256, n - 1);
    }
  }

  /** Two live channels never share their prefix octets. */
  lemma LivePrefixesDiffer(s: State, prefixSize: nat, c: nat, d: nat)
    requires Inv(s) && prefixSize >= 2 && s.max == MaxPrefix(prefixSize)
    requires c in s.owners && d in s.owners && c != d
    ensures BigEndian(s.owners[c], prefixSize) != BigEndian(s.owners[d], prefixSize)
  {
    if BigEndian(s.owners[c], prefixSize) == BigEndian(s.owners[d], prefixSize) {
      BigEndianBinds(s.owners[c], s.owners[d], prefixSize);
    }
  }

  // ---- the object ----

  const MIN_PREFIX_SIZE := 2
  const MAX_PREFIX_SIZE := 4

  datatype Allocated = Prefix(octets: bytes) | Exhausted

  class Sv2ExtranonceManager {
    const prefixSize: nat
    const totalExtranonceSize: nat
    const maxPrefix: nat
    var nextPrefix: nat
    var allocatedPrefixes: map<nat, nat>
    var usedPrefixes: set<nat>

    ghost function Now(): State
      reads this
    {
      State(maxPrefix, nextPrefix, allocatedPrefixes, usedPrefixes)
    }

    ghost predicate Valid()
      reads this
    {
      MIN_PREFIX_SIZE <= prefixSize <= MAX_PREFIX_SIZE && maxPrefix == MaxPrefix(prefixSize) && Inv(Now())
    }

    constructor (size: nat, total: nat)
      requires MIN_PREFIX_SIZE <= size <= MAX_PREFIX_SIZE
      ensures Valid() && Now() == Start(MaxPrefix(size)) && prefixSize == size && totalExtranonceSize == total
    {
      prefixSize, totalExtranonceSize, maxPrefix := size, total, MaxPrefix(size);
      nextPrefix, allocatedPrefixes, usedPrefixes := 1, map[], {};
      Powers();
    }

    method PrefixToBuffer(prefix: nat) returns (octets: bytes)
      ensures octets == BigEndian(prefix, prefixSize)
    {
      var buf := new byte[prefixSize](_ => 0);
      var val, i := prefix, prefixSize;
      while i > 0
        invariant 0 <= i <= prefixSize
        invariant BigEndian(val, i) + buf[i..] == BigEndian(prefix, prefixSize)
      {
        i := i - 1;
        buf[i] := val % 256;
        assert BigEndian(val, i + 1) == BigEndian(val / 256, i) + [val % 256];
        assert buf[i..] == [val % 256] + buf[i + 1..];
        val := val / 256;
      }
      octets := buf[..];
      assert [] + buf[0..] == octets;
    }

    /** The scan itself. */
    method FindFree() returns (localPrefix: nat)
      requires Valid()
      ensures
        match Scan(usedPrefixes, maxPrefix, nextPrefix, maxPrefix + 1)
        case Some(p) => localPrefix == p && p !in usedPrefixes
        case None => localPrefix in usedPrefixes
    {
      localPrefix := nextPrefix;
      var attempts := 0;
      while localPrefix in usedPrefixes && attempts <= maxPrefix
        invariant 0 <= attempts <= maxPrefix + 1
        invariant Scan(usedPrefixes, maxPrefix, nextPrefix, maxPrefix + 1)
               == Scan(usedPrefixes, maxPrefix, localPrefix, maxPrefix + 1 - attempts)
      {
        localPrefix := localPrefix + 1;
        if localPrefix > maxPrefix {
          localPrefix := 1;
        }
        attempts := attempts + 1;
      }
    }

    method Allocate(channelId: nat) returns (r: Allocated)
      requires Valid()
      modifies this
      ensures Valid() && Now() == AllocateStep(old(Now()), channelId).0
      ensures
        var found := AllocateStep(old(Now()), channelId).1;
        r == if found.None? then Exhausted else Prefix(BigEndian(found.value, prefixSize))
      ensures r.Exhausted? <==> channelId !in old(allocatedPrefixes) && |old(allocatedPrefixes)| == maxPrefix
    {
      ghost var before := Now();
      RefusedIffFull(before, channelId);
      AllocateKeeps(before, channelId);
      ghost var found := AllocateStep(before, channelId).1;
      if channelId in allocatedPrefixes {
        assert found == Some(allocatedPrefixes[channelId]);
        var existing := PrefixToBuffer(allocatedPrefixes[channelId]);
        return Prefix(existing);
      }
      var localPrefix := FindFree();
      if localPrefix in usedPrefixes {
        return Exhausted;
      }
      assert found == Some(localPrefix);
      allocatedPrefixes := allocatedPrefixes[channelId := localPrefix];
      usedPrefixes := usedPrefixes + {localPrefix};
      nextPrefix := localPrefix + 1;
      if nextPrefix > maxPrefix {
        nextPrefix := 1;
      }
      assert Now() == AllocateStep(before, channelId).0;
      var octets := PrefixToBuffer(localPrefix);
      r := Prefix(octets);
    }

    method Release(channelId: nat)
      requires Valid()
      modifies this
      ensures Valid() && Now() == ReleaseStep(old(Now()), channelId)
    {
      ReleaseKeeps(Now(), channelId);
      if channelId in allocatedPrefixes {
        var prefix := allocatedPrefixes[channelId];
        allocatedPrefixes := allocatedPrefixes - {channelId};
        usedPrefixes := usedPrefixes - {prefix};
      }
    }
  }
}
