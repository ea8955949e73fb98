/** The cache objects of coins.cpp: entries and flags changed in place, along a chain of base pointers. */
module CoinsCache {
  import opened Coins
  import C = Coins

  /** The view at the bottom of the chain: a database, whose spent records may linger. */
  class CoinStore {
    var coins: map<OutPoint, Coin>
    var hashBlock: nat

    method GetCoin(o: OutPoint) returns (found: bool, coin: Coin)
      ensures found == (o in coins) && (found ==> coin == coins[o])
    {
      found := o in coins;
      coin := if found then coins[o] else NullCoin;
    }

    method BatchWrite(mapCoins: map<OutPoint, Entry>, keep: set<OutPoint>, hashBlockIn: nat)
      modifies this
      ensures coins == Stored(old(coins), mapCoins, keep) && hashBlock == hashBlockIn
    {
      hashBlock := hashBlockIn;
      var todo := mapCoins.Keys;
      while todo != {}
        invariant todo <= mapCoins.Keys && hashBlock == hashBlockIn
        invariant forall o {:trigger Lookup(coins, o)} ::
          Lookup(coins, o) == if o in todo then Lookup(old(coins), o) else StoredAt(old(coins), mapCoins, keep, o)
        decreases |todo|
      {
        var o :| o in todo;
        ghost var before := coins;
        if mapCoins[o].isDirty {
          if IsSpent(mapCoins[o].coin) && o !in keep {
            coins := coins - {o};
          } else {
            coins := coins[o := mapCoins[o].coin];
          }
        }
        todo := todo - {o};
        forall x
          ensures Lookup(coins, x) == if x in todo then Lookup(old(coins), x)
            else StoredAt(old(coins), mapCoins, keep, x)
        {
          assert x != o ==> Lookup(coins, x) == Lookup(before, x);
        }
      }
      SameLookups(coins, Stored(old(coins), mapCoins, keep));
    }
  }

  lemma {:induction false} SameLookups<K, V>(a: map<K, V>, b: map<K, V>)
    requires forall k {:trigger Lookup(a, k)} :: Lookup(a, k) == Lookup(b, k)
    ensures a == b
  {
    forall k
      ensures k in a <==> k in b
      ensures k in a && k in b ==> a[k] == b[k]
    {
      assert Lookup(a, k) == Lookup(b, k);
    }
  }

  /** The memory a script takes outside its object; none for an empty one. */
  type Memory = m: seq<nat> -> nat | m([]) == 0 witness _ => 0

  function CoinMemory(mem: Memory, c: Coin): nat {
    mem(c.out.script)
  }

  /** The memory of all cached coins. */
  ghost function Usage(mem: Memory, m: map<OutPoint, Entry>): nat {
    if m == map[] then 0 else
      var o :| o in m;
      CoinMemory(mem, m[o].coin) + Usage(mem, m - {o})
  }

  lemma {:induction false} MinusTwice(m: map<OutPoint, Entry>, o: OutPoint, x: OutPoint)
    ensures m - {o} - {x} == m - {x} - {o}
  {
  }

  lemma {:induction false} UsageRemove(mem: Memory, m: map<OutPoint, Entry>, o: OutPoint)
    requires o in m
    ensures Usage(mem, m) == CoinMemory(mem, m[o].coin) + Usage(mem, m - {o})
    decreases |m|
  {
    var x :| x in m && Usage(mem, m) == CoinMemory(mem, m[x].coin) + Usage(mem, m - {x});
    if x != o {
      assert |m - {x}| < |m| && |m - {o}| < |m|;
      UsageRemove(mem, m - {x}, o);
      UsageRemove(mem, m - {o}, x);
      MinusTwice(m, o, x);
    }
  }

  /** What a change of one entry does to the memory. */
  lemma {:induction false} UsageChange(mem: Memory, m: map<OutPoint, Entry>, n: map<OutPoint, Entry>, o: OutPoint)
    requires m - {o} == n - {o}
    ensures Usage(mem, n) - (if o in n then CoinMemory(mem, n[o].coin) else 0) ==
      Usage(mem, m) - if o in m then CoinMemory(mem, m[o].coin) else 0
  {
    if o in m {
      UsageRemove(mem, m, o);
    } else {
      assert m - {o} == m;
    }
    if o in n {
      UsageRemove(mem, n, o);
    } else {
      assert n - {o} == n;
    }
  }

  /** All but the entries in `todo` have been merged, and none was misapplied. */
  ghost predicate Merging(
    now: map<OutPoint, Entry>, parent: map<OutPoint, Entry>, child: map<OutPoint, Entry>, todo: set<OutPoint>)
  {
    && (forall o {:trigger Lookup(now, o)} ::
         Lookup(now, o) == if o in todo then Lookup(parent, o) else MergedAt(parent, child, o))
    && forall o | o in child && o !in todo :: !Misapplied(parent, child, o)
  }

  lemma {:induction false} MergeStep(
    before: map<OutPoint, Entry>, now: map<OutPoint, Entry>, parent: map<OutPoint, Entry>, child: map<OutPoint, Entry>,
    todo: set<OutPoint>, o: OutPoint)
    requires Merging(before, parent, child, todo) && o in todo && before - {o} == now - {o}
    requires Lookup(now, o) == MergedAt(parent, child, o) && (o in child ==> !Misapplied(parent, child, o))
    ensures Merging(now, parent, child, todo - {o})
  {
    forall x
      ensures Lookup(now, x) == if x in todo - {o} then Lookup(parent, x) else MergedAt(parent, child, x)
    {
      if x != o {
        SameElsewhere(before, now, o, x);
        assert Lookup(before, x) == if x in todo then Lookup(parent, x) else MergedAt(parent, child, x);
      }
    }
  }

  lemma {:induction false} MergeStart(parent: map<OutPoint, Entry>, child: map<OutPoint, Entry>)
    ensures Merging(parent, parent, child, child.Keys)
  {
  }

  lemma {:induction false} MergeEnd(
    now: map<OutPoint, Entry>, parent: map<OutPoint, Entry>, child: map<OutPoint, Entry>)
    requires Merging(now, parent, child, {})
    ensures now == Merged(parent, child) && forall o :: o in child ==> !Misapplied(parent, child, o)
  {
    SameLookups(now, Merged(parent, child));
  }

  class CCoinsViewCache {
    const base: CCoinsViewCache?
    const store: CoinStore
    /** DynamicUsage of a script */
    const mem: Memory
    ghost const height: nat
    ghost const repr: set<object>
    var cacheCoins: map<OutPoint, Entry>
    var cachedCoinsUsage: int
    /** zero while it is not known */
    var hashBlock: nat

    /** The base pointers lead down to the store without a cycle. */
    ghost predicate Linked()
      decreases height
    {
      if base == null then repr == {this, store}
      else
        && base.height < height && base.Linked() && base.store == store && base.mem == mem
        && this !in base.repr && repr == {this} + base.repr
    }

    /** cachedCoinsUsage is the memory of the cached coins. */
    ghost predicate Accounted()
      reads this
    {
      cachedCoinsUsage == Usage(mem, cacheCoins)
    }

    /** Here and below. */
    ghost predicate AllAccounted()
      requires Linked()
      reads repr
      decreases height
    {
      Accounted() && (base != null ==> base.AllAccounted())
    }

    ghost function Value(): (s: Stack)
      requires Linked()
      reads repr
      ensures s.Cache? && s.entries == cacheCoins
      decreases height
    {
      Cache(cacheCoins, if base == null then Store(store.coins) else base.Value())
    }

    constructor OnStore(store: CoinStore, mem: Memory)
      ensures Linked() && this.store == store && base == null && cacheCoins == map[]
      ensures Value() == Cache(map[], Store(store.coins)) && AllAccounted() && hashBlock == 0
    {
      this.base, this.store, this.mem, this.cacheCoins := null, store, mem, map[];
      this.cachedCoinsUsage, this.hashBlock := 0, 0;
      this.repr, this.height := {this, store}, 0;
    }

    constructor (base: CCoinsViewCache)
      requires base.Linked()
      ensures Linked() && this.base == base && Value() == Cache(map[], base.Value())
      ensures (base.AllAccounted() ==> AllAccounted()) && hashBlock == 0
    {
      this.base, this.store, this.mem, this.cacheCoins := base, base.store, base.mem, map[];
      this.cachedCoinsUsage, this.hashBlock := 0, 0;
      this.repr, this.height := {this} + base.repr, base.height + 1;
    }

    method FetchCoin(o: OutPoint)
      requires Linked()
      modifies repr
      ensures Value() == C.FetchCoin(old(Value()), o) && (old(AllAccounted()) ==> AllAccounted())
      decreases height, 0
    {
      if o in cacheCoins {
        return;
      }
      var found, tmp;
      if base == null {
        found, tmp := store.GetCoin(o);
      } else {
        found, tmp := base.GetCoin(o);
      }
      if !found {
        return;
      }
      ghost var before := cacheCoins;
      cacheCoins := cacheCoins[o := Entry(tmp, false, false)];
      if IsSpent(cacheCoins[o].coin) {
        cacheCoins := cacheCoins[o := cacheCoins[o].(isFresh := true)];
      }
      cachedCoinsUsage := cachedCoinsUsage + CoinMemory(mem, cacheCoins[o].coin);
      UsageChange(mem, before, cacheCoins, o);
    }

    method GetCoin(o: OutPoint) returns (found: bool, coin: Coin)
      requires Linked()
      modifies repr
      ensures var (t, r) := C.GetCoin(old(Value()), o); Value() == t && found == r.Some? && (found ==> coin == r.value)
      ensures old(AllAccounted()) ==> AllAccounted()
      decreases height, 1
    {
      FetchCoin(o);
      found, coin := false, NullCoin;
      if o in cacheCoins {
        coin := cacheCoins[o].coin;
        found := !IsSpent(coin);
      }
    }

    /** Returns false where the source throws; then the memory of the entry in the way has been taken off. */
    method AddCoin(o: OutPoint, coin: Coin, possibleOverwrite: bool) returns (ok: bool)
      requires Linked() && !IsSpent(coin)
      modifies this
      ensures var r := C.AddCoin(old(Value()), o, coin, possibleOverwrite); ok == r.Some? && (ok ==> Value() == r.value)
      ensures ok && old(AllAccounted()) ==> AllAccounted()
      ensures !ok ==> o in old(cacheCoins) && Value() == old(Value())
      ensures !ok && old(AllAccounted()) ==> (AllAccounted() <==> CoinMemory(mem, old(cacheCoins)[o].coin) == 0)
    {
      if IsUnspendable(coin.out.script) {
        return true;
      }
      if o in cacheCoins {
        UsageRemove(mem, cacheCoins, o);
      }
      ok := PutCoin(o, coin, possibleOverwrite);
    }

    method PutCoin(o: OutPoint, coin: Coin, possibleOverwrite: bool) returns (ok: bool)
      modifies this`cacheCoins, this`cachedCoinsUsage
      ensures var e := if o in old(cacheCoins) then old(cacheCoins)[o] else Entry(NullCoin, false, false);
        && ok == (possibleOverwrite || IsSpent(e.coin))
        && (ok ==>
             cacheCoins == old(cacheCoins)[o := Entry(coin, true, e.isFresh || (!possibleOverwrite && !e.isDirty))])
        && (!ok ==> o in old(cacheCoins) && cacheCoins == old(cacheCoins))
      ensures ok && old(Accounted()) ==> Accounted()
      ensures !ok ==> cachedCoinsUsage == old(cachedCoinsUsage) - CoinMemory(mem, old(cacheCoins)[o].coin)
    {
      if o !in cacheCoins {
        cacheCoins := cacheCoins[o := Entry(NullCoin, false, false)];
      } else {
        cachedCoinsUsage := cachedCoinsUsage - CoinMemory(mem, cacheCoins[o].coin);
      }
      var isFresh := false;
      if !possibleOverwrite {
        if !IsSpent(cacheCoins[o].coin) {
          return false;
        }
        isFresh := !cacheCoins[o].isDirty;
      }
      cacheCoins := cacheCoins[o := cacheCoins[o].(coin := coin)];
      cacheCoins := cacheCoins[o := cacheCoins[o].(isDirty := true, isFresh := cacheCoins[o].isFresh || isFresh)];
      cachedCoinsUsage := cachedCoinsUsage + CoinMemory(mem, cacheCoins[o].coin);
      assert cacheCoins == old(cacheCoins)[o := cacheCoins[o]];
      UsageChange(mem, old(cacheCoins), cacheCoins, o);
      return true;
    }

    method SpendCoin(o: OutPoint) returns (found: bool, moveout: Coin)
      requires Linked()
      modifies repr
      ensures var (t, r) := C.SpendCoin(old(Value()), o);
        Value() == t && found == r.Some? && (found ==> moveout == r.value)
      ensures old(AllAccounted()) ==> AllAccounted()
    {
      moveout := NullCoin;
      FetchCoin(o);
      if o !in cacheCoins {
        return false, moveout;
      }
      ghost var before := cacheCoins;
      cachedCoinsUsage := cachedCoinsUsage - CoinMemory(mem, cacheCoins[o].coin);
      moveout := cacheCoins[o].coin;
      if cacheCoins[o].isFresh {
        cacheCoins := cacheCoins - {o};
      } else {
        cacheCoins := cacheCoins[o := cacheCoins[o].(isDirty := true)];
        cacheCoins := cacheCoins[o := cacheCoins[o].(coin := NullCoin)];
      }
      UsageChange(mem, before, cacheCoins, o);
      return true, moveout;
    }

    method Uncache(o: OutPoint)
      requires Linked()
      modifies this
      ensures Value() == C.Uncache(old(Value()), o) && (old(AllAccounted()) ==> AllAccounted())
    {
      if o in cacheCoins && !cacheCoins[o].isDirty && !cacheCoins[o].isFresh {
        UsageRemove(mem, cacheCoins, o);
        cachedCoinsUsage := cachedCoinsUsage - CoinMemory(mem, cacheCoins[o].coin);
        cacheCoins := cacheCoins - {o};
      }
    }

    /** One child entry of BatchWrite; returns false where the source throws. */
    method WriteEntry(o: OutPoint, e: Entry) returns (ok: bool)
      requires e.isDirty
      modifies this
      ensures ok == !Misapplied(old(cacheCoins), map[o := e], o)
      ensures ok ==> Lookup(cacheCoins, o) == MergeEntry(Lookup(old(cacheCoins), o), e)
      ensures ok ==> cacheCoins - {o} == old(cacheCoins) - {o}
      ensures hashBlock == old(hashBlock) && (old(Accounted()) ==> Accounted())
    {
      if o !in cacheCoins {
        if !(e.isFresh && IsSpent(e.coin)) {
          var entry := Entry(e.coin, true, false);
          if e.isFresh {
            entry := entry.(isFresh := true);
          }
          cacheCoins := cacheCoins[o := entry];
          cachedCoinsUsage := cachedCoinsUsage + CoinMemory(mem, entry.coin);
        }
      } else {
        if e.isFresh && !IsSpent(cacheCoins[o].coin) {
          return false;
        }
        cachedCoinsUsage := cachedCoinsUsage - CoinMemory(mem, cacheCoins[o].coin);
        if cacheCoins[o].isFresh && IsSpent(e.coin) {
          cacheCoins := cacheCoins - {o};
        } else {
          cacheCoins := cacheCoins[o := cacheCoins[o].(coin := e.coin)];
          cachedCoinsUsage := cachedCoinsUsage + CoinMemory(mem, cacheCoins[o].coin);
          cacheCoins := cacheCoins[o := cacheCoins[o].(isDirty := true)];
        }
      }
      UsageChange(mem, old(cacheCoins), cacheCoins, o);
      return true;
    }

    /** BatchWrite, taking the child's entries in any order. */
    method BatchWrite(mapCoins: map<OutPoint, Entry>, hashBlockIn: nat) returns (ok: bool)
      modifies this
      ensures ok == !exists o | o in mapCoins :: Misapplied(old(cacheCoins), mapCoins, o)
      ensures ok ==> cacheCoins == Merged(old(cacheCoins), mapCoins)
      ensures hashBlock == (if ok then hashBlockIn else old(hashBlock)) && (old(Accounted()) ==> Accounted())
    {
      ghost var parent := cacheCoins;
      var todo := mapCoins.Keys;
      MergeStart(parent, mapCoins);
      while todo != {}
        invariant todo <= mapCoins.Keys && hashBlock == old(hashBlock) && (old(Accounted()) ==> Accounted())
        invariant Merging(cacheCoins, parent, mapCoins, todo)
        decreases |todo|
      {
        var o :| o in todo;
        ok := WriteNext(o, mapCoins, parent, todo);
        if !ok {
          return;
        }
        todo := todo - {o};
      }
      MergeEnd(cacheCoins, parent, mapCoins);
      ok := true;
      hashBlock := hashBlockIn;
    }

    /** One round of the loop of BatchWrite, which ignores entries that are not dirty. */
    method WriteNext(
      o: OutPoint, mapCoins: map<OutPoint, Entry>, ghost parent: map<OutPoint, Entry>, ghost todo: set<OutPoint>)
      returns (ok: bool)
      requires o in todo && o in mapCoins && Merging(cacheCoins, parent, mapCoins, todo)
      modifies this
      ensures ok == !Misapplied(parent, mapCoins, o) && (ok ==> Merging(cacheCoins, parent, mapCoins, todo - {o}))
      ensures hashBlock == old(hashBlock) && (old(Accounted()) ==> Accounted())
    {
      assert Lookup(cacheCoins, o) == Lookup(parent, o);
      ok := true;
      if mapCoins[o].isDirty {
        ok := WriteEntry(o, mapCoins[o]);
      }
      if ok {
        MergeStep(old(cacheCoins), cacheCoins, parent, mapCoins, todo, o);
      }
    }

    /** Returns false where the source throws; `keep` are the spent records a store holds on to. */
    method Flush(keep: set<OutPoint>) returns (ok: bool)
      requires Linked()
      modifies repr
      ensures var r := C.Flush(old(Value()), keep); ok == r.Some? && (ok ==> Value() == r.value)
      ensures ok && old(AllAccounted()) ==> AllAccounted()
      ensures ok ==> hashBlock == old(hashBlock)
      ensures ok ==> hashBlock == if base == null then store.hashBlock else base.hashBlock
    {
      if base == null {
        store.BatchWrite(cacheCoins, keep, hashBlock);
      } else {
        ghost var accounted := base.AllAccounted();
        ok := base.BatchWrite(cacheCoins, hashBlock);
        if !ok {
          return;
        }
        assert accounted ==> base.AllAccounted();
      }
      cacheCoins := map[];
      cachedCoinsUsage := 0;
      return true;
    }

    /** The best block as a reader of this view sees it. */
    ghost function BestBlock(): nat
      requires Linked()
      reads repr
      decreases height
    {
      if hashBlock != 0 then hashBlock else if base == null then store.hashBlock else base.BestBlock()
    }

    /** Looking up the best block caches it on the way, changes no view's best block and finds it. */
    method GetBestBlock() returns (best: nat)
      requires Linked()
      modifies repr
      ensures best == old(BestBlock()) == BestBlock() && Value() == old(Value())
      ensures old(AllAccounted()) ==> AllAccounted()
      decreases height
    {
      if hashBlock == 0 {
        if base == null {
          hashBlock := store.hashBlock;
        } else {
          hashBlock := base.GetBestBlock();
        }
      }
      best := hashBlock;
    }

    method SetBestBlock(hashBlockIn: nat)
      requires Linked()
      modifies this`hashBlock
      ensures hashBlock == hashBlockIn && Value() == old(Value()) && (old(AllAccounted()) ==> AllAccounted())
      ensures hashBlockIn != 0 ==> BestBlock() == hashBlockIn
    {
      hashBlock := hashBlockIn;
    }
  }

  lemma {:induction false} SameElsewhere(a: map<OutPoint, Entry>, b: map<OutPoint, Entry>, o: OutPoint, x: OutPoint)
    requires a - {o} == b - {o} && x != o
    ensures Lookup(a, x) == Lookup(b, x)
  {
    assert x in a <==> x in a - {o};
    assert x in b <==> x in b - {o};
    assert x in a ==> (a - {o})[x] == a[x];
    assert x in b ==> (b - {o})[x] == b[x];
  }
}
