/** How few buckets the addresses of one network group can reach (addrman.h, addrman.cpp). */
module AddrManBuckets {
  import opened AddrManModel

  /** The network group of an address, and the keyed hashes from which buckets are chosen. */
  datatype Hashes<!G> = Hashes(
    group: NetAddr -> G, ofService: (nat, Service) -> nat, ofGroups: (nat, G, G) -> nat, ofGroup: (nat, G, nat) -> nat)

  /** GetTriedBucket and GetNewBucket: a group and one of eight numbers, or a source group and one of 64. */
  ghost predicate Chosen<G(!new)>(c: Config, h: Hashes<G>) {
    && (forall key, svc {:trigger c.triedHash(key, svc)} ::
         c.triedHash(key, svc) == h.ofGroup(key, h.group(svc.addr), h.ofService(key, svc) % 8))
    && (forall key, svc, source {:trigger c.newHash(key, svc, source)} ::
         c.newHash(key, svc, source) ==
           h.ofGroup(key, h.group(source), h.ofGroups(key, h.group(svc.addr), h.group(source)) % 64))
  }

  /** What the first `n` numbers are mapped to. */
  ghost function Image(f: nat -> int, n: nat): (r: set<int>)
    ensures |r| <= n && forall k :: 0 <= k < n ==> f(k) in r
  {
    if n == 0 then {} else Image(f, n - 1) + {f(n - 1)}
  }

  lemma {:induction false} Fewer<T>(a: set<T>, b: set<T>)
    requires a <= b
    ensures |a| <= |b|
  {
    if a != {} {
      var x :| x in a;
      Fewer(a - {x}, b - {x});
    }
  }

  /** The tried buckets with an entry of the group. */
  ghost function TriedBucketsOf<G(!new)>(h: Hashes<G>, s: State, g: G): set<int> {
    set slot | slot in s.vvTried && s.vvTried[slot] in s.mapInfo &&
      h.group(s.mapInfo[s.vvTried[slot]].svc.addr) == g :: slot.bucket
  }

  /** In every consistent manager the addresses of one group are in at most eight tried buckets. */
  lemma {:induction false} TriedGroupSpread<G(!new)>(c: Config, h: Hashes<G>, s: State, g: G)
    requires Consistent(c, s, {}, 0) && Chosen(c, h)
    ensures |TriedBucketsOf(h, s, g)| <= 8
  {
    var f := (k: nat) => h.ofGroup(s.key, g, k) % c.triedBuckets;
    var reach := Image(f, 8);
    forall slot | slot in s.vvTried && s.vvTried[slot] in s.mapInfo && h.group(s.mapInfo[s.vvTried[slot]].svc.addr) == g
      ensures slot.bucket in reach
    {
      assert TriedAt(c, s, slot);
      var svc := s.mapInfo[s.vvTried[slot]].svc;
      assert slot.bucket == f(h.ofService(s.key, svc) % 8);
    }
    Fewer(TriedBucketsOf(h, s, g), reach);
  }

  /** The sources of one group assign addresses, whichever they are, to at most 64 new buckets. */
  lemma {:induction false} SourceGroupSpread<G(!new)>(c: Config, h: Hashes<G>, key: nat, g: G) returns (reach: set<int>)
    requires ValidConfig(c) && Chosen(c, h)
    ensures |reach| <= 64
    ensures forall svc, source :: h.group(source) == g ==> NewBucket(c, key, svc, source) in reach
  {
    var f := (k: nat) => h.ofGroup(key, g, k) % c.newBuckets;
    reach := Image(f, 64);
    forall svc, source | h.group(source) == g
      ensures NewBucket(c, key, svc, source) in reach
    {
      assert NewBucket(c, key, svc, source) == f(h.ofGroups(key, h.group(svc.addr), h.group(source)) % 64);
    }
  }
}
